/**
 * Python dictionaries keep their keys in insertion order, and several files
 * this tool writes list their rows in that order. An `OMap` is that
 * dictionary: a sequence of entries in insertion order with each key once.
 */
module OrderedMaps {
  import opened Wrappers

  type OMap<K, V> = seq<(K, V)>

  function Keys<K(==,!new), V>(m: OMap<K, V>): (r: seq<K>)
    ensures |r| == |m|
    ensures forall i :: 0 <= i < |m| ==> r[i] == m[i].0
  {
    seq(|m|, i requires 0 <= i < |m| => m[i].0)
  }

  /** Every key occurs once. */
  predicate Valid<K(==,!new), V>(m: OMap<K, V>) {
    forall i, j :: 0 <= i < j < |m| ==> m[i].0 != m[j].0
  }

  predicate HasKey<K(==,!new), V>(m: OMap<K, V>, k: K) {
    k in Keys(m)
  }

  /** Position of `k` among the entries, or `|m|` when it is absent. */
  function IndexOf<K(==,!new), V>(m: OMap<K, V>, k: K): (r: nat)
    ensures r <= |m|
    ensures r < |m| ==> m[r].0 == k
    ensures forall j :: 0 <= j < r ==> m[j].0 != k
    ensures r < |m| <==> HasKey(m, k)
  {
    if |m| == 0 then 0
    else if m[0].0 == k then 0
    else
      assert Keys(m) == [m[0].0] + Keys(m[1..]);
      1 + IndexOf(m[1..], k)
  }

  /** `d.get(k)`. */
  function Get<K(==,!new), V>(m: OMap<K, V>, k: K): (r: Option<V>)
    ensures r.None? <==> !HasKey(m, k)
    ensures r.Some? ==> exists i :: 0 <= i < |m| && m[i] == (k, r.value)
    ensures Valid(m) ==> forall i :: 0 <= i < |m| && m[i].0 == k ==> r == Some(m[i].1)
  {
    var i := IndexOf(m, k);
    if i < |m| then Some(m[i].1) else None
  }

  /** `d.get(k, default)`. */
  function GetOr<K(==,!new), V>(m: OMap<K, V>, k: K, default: V): V {
    match Get(m, k)
    case Some(v) => v
    case None => default
  }

  /** Two entry lists that agree everywhere but at one position holding `k` agree on every other key. */
  lemma IndexOfElsewhere<K(!new), V>(m: OMap<K, V>, r: OMap<K, V>, i: nat, k: K, k': K)
    requires |r| == |m| && i < |m| && m[i].0 == k && r[i].0 == k && k' != k
    requires forall j :: 0 <= j < |m| && j != i ==> r[j] == m[j]
    ensures IndexOf(r, k') == IndexOf(m, k')
  {
  }

  /** Appending an entry for a new key leaves the other keys' values alone. */
  lemma GetAppend<K(!new), V>(m: OMap<K, V>, k: K, v: V, k': K)
    requires !HasKey(m, k) && k' != k
    ensures Get(m + [(k, v)], k') == Get(m, k')
  {
    var r := m + [(k, v)];
    assert Keys(r) == Keys(m) + [k];
    assert forall j :: 0 <= j < |m| ==> r[j] == m[j];
    if HasKey(m, k') {
      assert IndexOf(r, k') == IndexOf(m, k');
    }
  }

  /** Looking past a first entry that holds another key. */
  lemma GetTail<K(!new), V>(m: OMap<K, V>, k: K)
    requires |m| > 0 && m[0].0 != k
    ensures Get(m, k) == Get(m[1..], k)
    ensures HasKey(m, k) <==> HasKey(m[1..], k)
  {
    assert Keys(m) == [m[0].0] + Keys(m[1..]);
  }

  function PutAt<K(==,!new), V>(m: OMap<K, V>, k: K, v: V): OMap<K, V> {
    var i := IndexOf(m, k);
    if i < |m| then m[i := (k, v)] else m + [(k, v)]
  }

  lemma PutAtProps<K(!new), V>(m: OMap<K, V>, k: K, v: V)
    ensures Keys(PutAt(m, k, v)) == if HasKey(m, k) then Keys(m) else Keys(m) + [k]
    ensures IndexOf(PutAt(m, k, v), k) < |PutAt(m, k, v)| && PutAt(m, k, v)[IndexOf(PutAt(m, k, v), k)] == (k, v)
    ensures forall k' :: k' != k ==> Get(PutAt(m, k, v), k') == Get(m, k')
  {
    var i := IndexOf(m, k);
    if i < |m| {
      PutAtReplaces(m, k, v, i);
    } else {
      PutAtAppends(m, k, v);
    }
  }

  lemma PutAtReplaces<K(!new), V>(m: OMap<K, V>, k: K, v: V, i: nat)
    requires i == IndexOf(m, k) && i < |m|
    ensures Keys(m[i := (k, v)]) == Keys(m)
    ensures IndexOf(m[i := (k, v)], k) == i
    ensures forall k' :: k' != k ==> Get(m[i := (k, v)], k') == Get(m, k')
  {
    var r := m[i := (k, v)];
    assert Keys(r) == Keys(m);
    forall k' | k' != k ensures Get(r, k') == Get(m, k') {
      IndexOfElsewhere(m, r, i, k, k');
    }
  }

  lemma PutAtAppends<K(!new), V>(m: OMap<K, V>, k: K, v: V)
    requires IndexOf(m, k) == |m|
    ensures Keys(m + [(k, v)]) == Keys(m) + [k]
    ensures IndexOf(m + [(k, v)], k) == |m|
    ensures forall k' :: k' != k ==> Get(m + [(k, v)], k') == Get(m, k')
  {
    KeysAppend(m, (k, v));
    IndexOfAppend(m, k, v);
    forall k' | k' != k ensures Get(m + [(k, v)], k') == Get(m, k') {
      GetAppend(m, k, v, k');
    }
  }

  lemma KeysAppend<K(!new), V>(m: OMap<K, V>, e: (K, V))
    ensures Keys(m + [e]) == Keys(m) + [e.0]
  {
    var r := m + [e];
    var ks := Keys(m) + [e.0];
    forall j | 0 <= j < |r| ensures Keys(r)[j] == ks[j] {
      if j < |m| { assert r[j] == m[j]; }
    }
  }

  lemma IndexOfAppend<K(!new), V>(m: OMap<K, V>, k: K, v: V)
    requires IndexOf(m, k) == |m|
    ensures IndexOf(m + [(k, v)], k) == |m|
  {
    var r := m + [(k, v)];
    var j := IndexOf(r, k);
    assert r[|m|] == (k, v);
  }

  lemma ValidByKeys<K(!new), V>(m: OMap<K, V>, r: OMap<K, V>, k: K)
    requires Keys(r) == if HasKey(m, k) then Keys(m) else Keys(m) + [k]
    ensures Valid(m) ==> Valid(r)
  {
    if !Valid(m) { return; }
    forall i, j | 0 <= i < j < |r| ensures r[i].0 != r[j].0 {
      assert r[i].0 == Keys(r)[i] && r[j].0 == Keys(r)[j];
      if j == |m| {
        assert !HasKey(m, k) && r[j].0 == k;
        assert Keys(r)[i] == Keys(m)[i] && Keys(m)[i] in Keys(m);
      } else {
        assert Keys(m)[i] == m[i].0 && Keys(m)[j] == m[j].0;
      }
    }
  }

  /**
   * `d[k] = v`: a key already present keeps its place and takes the new
   * value; a new key goes to the end.
   */
  function Put<K(==,!new), V>(m: OMap<K, V>, k: K, v: V): (r: OMap<K, V>)
    ensures Keys(r) == if HasKey(m, k) then Keys(m) else Keys(m) + [k]
    ensures Valid(m) ==> Valid(r)
    ensures Get(r, k) == Some(v)
    ensures forall k' :: k' != k ==> Get(r, k') == Get(m, k')
  {
    PutAtProps(m, k, v);
    ValidByKeys(m, PutAt(m, k, v), k);
    PutAt(m, k, v)
  }

  /** Putting a new key appends its entry. */
  lemma PutFresh<K(!new), V>(m: OMap<K, V>, k: K, v: V)
    requires !HasKey(m, k)
    ensures Put(m, k, v) == m + [(k, v)]
  {
  }

  /** The set of keys. */
  function KeySet<K(==,!new), V>(m: OMap<K, V>): (r: set<K>)
    ensures forall k :: k in r <==> HasKey(m, k)
  {
    set i | 0 <= i < |m| :: Keys(m)[i]
  }

  /** An entry appended at the end is only seen for a key the entries before it lack. */
  lemma GetSnoc<K(!new), V>(m: OMap<K, V>, e: (K, V), k: K)
    ensures Keys(m + [e]) == Keys(m) + [e.0]
    ensures HasKey(m + [e], k) <==> HasKey(m, k) || e.0 == k
    ensures Get(m + [e], k) == if HasKey(m, k) then Get(m, k) else if e.0 == k then Some(e.1) else None
  {
    var r := m + [e];
    assert Keys(r) == Keys(m) + [e.0];
    var i := IndexOf(m, k);
    var i' := IndexOf(r, k);
    if i < |m| {
      assert r[i] == m[i];
      assert i' == i;
    }
  }

  /** `GetSnoc` and `ValidSnoc` for the last entry of a non-empty map. */
  lemma GetLast<K(!new), V>(m: OMap<K, V>, k: K)
    requires |m| > 0
    ensures var init := m[..|m| - 1]; var e := m[|m| - 1];
      (Valid(m) <==> Valid(init) && !HasKey(init, e.0))
      && (HasKey(m, k) <==> HasKey(init, k) || e.0 == k)
      && Get(m, k) == if HasKey(init, k) then Get(init, k) else if e.0 == k then Some(e.1) else None
  {
    var init := m[..|m| - 1];
    var e := m[|m| - 1];
    assert m == init + [e];
    GetSnoc(init, e, k);
    ValidSnoc(init, e);
  }

  lemma ValidSnoc<K(!new), V>(m: OMap<K, V>, e: (K, V))
    ensures Valid(m + [e]) <==> Valid(m) && !HasKey(m, e.0)
  {
    var r := m + [e];
    assert forall i :: 0 <= i < |m| ==> r[i] == m[i];
    if Valid(r) {
      forall i | 0 <= i < |m| ensures Keys(m)[i] != e.0 {
        assert r[|m|] == e;
      }
    }
    if Valid(m) && !HasKey(m, e.0) {
      forall i, j | 0 <= i < j < |r| ensures r[i].0 != r[j].0 {
        if j == |m| { assert Keys(m)[i] == m[i].0; }
      }
    }
  }

  lemma PutHasKey<K(!new), V>(m: OMap<K, V>, k: K, v: V, x: K)
    ensures HasKey(Put(m, k, v), x) <==> HasKey(m, x) || x == k
  {
    if x != k { assert Get(Put(m, k, v), x) == Get(m, x); }
  }

  lemma PutKeySet<K(!new), V>(m: OMap<K, V>, k: K, v: V)
    ensures KeySet(Put(m, k, v)) == KeySet(m) + {k}
  {
    var r := Put(m, k, v);
    forall k' ensures HasKey(r, k') <==> HasKey(m, k') || k' == k {
      if k' != k { assert Get(r, k') == Get(m, k'); }
    }
  }

  /** With every key once, there are as many keys as entries. */
  lemma {:induction false} KeySetSize<K(!new), V>(m: OMap<K, V>)
    requires Valid(m)
    ensures |KeySet(m)| == |m|
  {
    if |m| > 0 {
      var init := m[..|m| - 1];
      var e := m[|m| - 1];
      assert m == init + [e];
      assert Valid(init);
      KeySetSize(init);
      forall k ensures HasKey(m, k) <==> HasKey(init, k) || e.0 == k { GetSnoc(init, e, k); }
      assert KeySet(m) == KeySet(init) + {e.0};
    }
  }

  /** `del d[k]` (no effect when `k` is absent). */
  function Remove<K(==,!new), V>(m: OMap<K, V>, k: K): (r: OMap<K, V>)
    ensures |r| <= |m|
    ensures !HasKey(r, k)
    ensures forall k' :: k' != k ==> Get(r, k') == Get(m, k')
    ensures Valid(m) ==> Valid(r)
  {
    if |m| == 0 then []
    else
      var rest := Remove(m[1..], k);
      if m[0].0 == k then
        assert forall k' :: k' != k ==> Get(m, k') == Get(m[1..], k') by {
          forall k' | k' != k ensures Get(m, k') == Get(m[1..], k') { GetTail(m, k'); }
        }
        rest
      else
        var r := [m[0]] + rest;
        assert r[1..] == rest;
        GetTail(r, k);
        assert forall k' :: k' != k && k' != m[0].0 ==> Get(r, k') == Get(m, k') by {
          forall k' | k' != k && k' != m[0].0 ensures Get(r, k') == Get(m, k') {
            GetTail(r, k'); GetTail(m, k');
          }
        }
        assert Valid(m) ==> !HasKey(rest, m[0].0) by {
          assert Get(rest, m[0].0) == Get(m[1..], m[0].0);
        }
        ValidCons(m[0], rest);
        r
  }

  lemma ValidCons<K(!new), V>(e: (K, V), rest: OMap<K, V>)
    ensures Valid(rest) && !HasKey(rest, e.0) ==> Valid([e] + rest)
  {
    if !(Valid(rest) && !HasKey(rest, e.0)) { return; }
    var r := [e] + rest;
    forall i, j | 0 <= i < j < |r| ensures r[i].0 != r[j].0 {
      if i == 0 { assert Keys(rest)[j - 1] == r[j].0; }
      else { assert r[i] == rest[i - 1] && r[j] == rest[j - 1]; }
    }
  }

  /** The dictionary's contents, order forgotten. */
  function ToMap<K(==,!new), V>(m: OMap<K, V>): (r: map<K, V>)
    ensures forall k :: k in r <==> HasKey(m, k)
    ensures forall k :: k in r ==> Get(m, k) == Some(r[k])
  {
    if |m| == 0 then map[]
    else ToMap(m[1..])[m[0].0 := m[0].1]
  }

  lemma KeyAt<K(!new), V>(m: OMap<K, V>, i: nat)
    requires i < |m|
    ensures HasKey(m, m[i].0)
  {
    assert Keys(m)[i] == m[i].0;
  }

  /** Replacing the value at one position changes that key's value and no other. */
  lemma GetReplaced<K(!new), V>(m: OMap<K, V>, i: nat, v: V, k: K)
    requires Valid(m) && i < |m|
    ensures Valid(m[i := (m[i].0, v)])
    ensures Keys(m[i := (m[i].0, v)]) == Keys(m)
    ensures Get(m[i := (m[i].0, v)], k) == if k == m[i].0 then Some(v) else Get(m, k)
  {
    var r := m[i := (m[i].0, v)];
    assert Keys(r) == Keys(m);
    if k != m[i].0 {
      IndexOfElsewhere(m, r, i, m[i].0, k);
    } else {
      KeyAt(r, i);
    }
  }

  /** Removing a key keeps the remaining entries as they were. */
  lemma {:induction false} RemoveEntries<K(!new), V>(m: OMap<K, V>, k: K)
    ensures forall e :: e in Remove(m, k) ==> e in m
  {
    if |m| > 0 {
      RemoveEntries(m[1..], k);
    }
  }
}

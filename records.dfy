/** A plain string-keyed object of the host language, seen as an
    insertion-ordered record: a sequence of (key, value) entries whose keys
    are pairwise distinct. Both the builder's step table and the result record
    that `run` fills in are records. */
module Records {

  datatype Option<T> = None | Some(value: T)

  /** No key appears twice: an object has at most one property per name. */
  predicate DistinctKeys<V>(t: seq<(string, V)>)
  {
    forall i, j :: 0 <= i < j < |t| ==> t[i].0 != t[j].0
  }

  type Record<V> = t: seq<(string, V)> | DistinctKeys(t) witness []

  /** The keys in iteration order. */
  function Keys<V>(t: seq<(string, V)>): seq<string>
  {
    seq(|t|, i requires 0 <= i < |t| => t[i].0)
  }

  lemma KeysAppend<V>(t: seq<(string, V)>, k: string, v: V)
    ensures Keys(t + [(k, v)]) == Keys(t) + [k]
  {
  }

  lemma KeysPrefix<V>(t: seq<(string, V)>, n: nat)
    requires n <= |t|
    ensures Keys(t[..n]) == Keys(t)[..n]
  {
  }

  /** The value stored under `k`, if any. */
  function Get<V>(t: seq<(string, V)>, k: string): Option<V>
    decreases |t|
  {
    if t == [] then None
    else if t[0].0 == k then Some(t[0].1)
    else Get(t[1..], k)
  }

  /** The record forgetting its order: the dictionary it stands for. */
  function ToMap<V>(t: seq<(string, V)>): map<string, V>
    decreases |t|
  {
    if t == [] then map[] else ToMap(t[1..])[t[0].0 := t[0].1]
  }

  /** `r` is `t` with `v` stored under `k`: a new key is appended after all
      other entries; an existing key keeps its position and takes the new
      value, and every other entry stays as it was. */
  ghost predicate Stores<V>(t: seq<(string, V)>, k: string, v: V, r: seq<(string, V)>)
  {
    && (k !in Keys(t) ==> r == t + [(k, v)])
    && (k in Keys(t) ==>
          |r| == |t| &&
          forall i :: 0 <= i < |t| ==> r[i] == if t[i].0 == k then (k, v) else t[i])
  }

  /** Storing `v` under `k`, as both the spread `{...t, [k]: v}` and the
      assignment `t[k] = v` do. */
  function Put<V>(t: Record<V>, k: string, v: V): (r: Record<V>)
    ensures Stores(t, k, v, r)
    decreases |t|
  {
    if t == [] then [(k, v)]
    else if t[0].0 == k then
      var r := [(k, v)] + t[1..];
      assert Keys(t)[0] == k;
      assert forall i :: 0 <= i < |t| ==> r[i].0 == t[i].0;
      r
    else
      var rest := Put(t[1..], k, v);
      assert Keys(t) == [t[0].0] + Keys(t[1..]);
      assert forall i :: 0 <= i < |rest| ==> rest[i].0 != t[0].0 by {
        forall i | 0 <= i < |rest| ensures rest[i].0 != t[0].0 {
          if k in Keys(t[1..]) {
            assert rest[i].0 == t[1..][i].0;
          } else if i < |t| - 1 {
            assert rest[i] == t[1..][i];
          }
        }
      }
      [t[0]] + rest
  }

  /** `Get` reads back what `Put` stored, and no other key changes. */
  lemma {:induction false} GetPut<V>(t: Record<V>, k: string, v: V, other: string)
    ensures Get(Put(t, k, v), k) == Some(v)
    ensures other != k ==> Get(Put(t, k, v), other) == Get(t, other)
    decreases |t|
  {
    var r := Put(t, k, v);
    if t == [] {
    } else if t[0].0 == k {
      assert r[1..] == t[1..];
    } else {
      assert r[1..] == Put(t[1..], k, v);
      GetPut(t[1..], k, v, other);
    }
  }

  lemma UpdatesCommute<V>(m: map<string, V>, a: string, x: V, b: string, y: V)
    requires a != b
    ensures m[a := x][b := y] == m[b := y][a := x]
  {
  }

  lemma UpdateOverwrites<V>(m: map<string, V>, a: string, x: V, y: V)
    ensures m[a := x][a := y] == m[a := y]
  {
  }

  /** Seen as a dictionary, `Put` is map update: the last write wins. */
  lemma {:induction false} PutIsMapUpdate<V>(t: Record<V>, k: string, v: V)
    ensures ToMap(Put(t, k, v)) == ToMap(t)[k := v]
    decreases |t|
  {
    var r := Put(t, k, v);
    if t == [] {
      assert r == [(k, v)];
      assert ToMap(r) == ToMap(r[1..])[k := v];
    } else if t[0].0 == k {
      assert r == [(k, v)] + t[1..];
      assert r[0] == (k, v) && r[1..] == t[1..];
      assert ToMap(r) == ToMap(t[1..])[k := v];
      assert ToMap(t) == ToMap(t[1..])[k := t[0].1];
      UpdateOverwrites(ToMap(t[1..]), k, t[0].1, v);
    } else {
      var rest := Put(t[1..], k, v);
      assert r == [t[0]] + rest;
      assert r[0] == t[0] && r[1..] == rest;
      assert ToMap(r) == ToMap(rest)[t[0].0 := t[0].1];
      PutIsMapUpdate(t[1..], k, v);
      assert ToMap(t) == ToMap(t[1..])[t[0].0 := t[0].1];
      UpdatesCommute(ToMap(t[1..]), k, v, t[0].0, t[0].1);
    }
  }
}

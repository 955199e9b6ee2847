/**
  A JavaScript object as the loader uses it: its own keys in insertion order
  (assigning an existing key keeps its place, a new key goes last, `delete`
  removes it) and one value per key. `for (k in o)` visits `keys` in order.
  JavaScript visits keys that are array indices ("0", "42") first, in
  numeric order; here every key keeps its insertion place.
 */
module JsObject {

  datatype Option<T> = None | Some(value: T)

  /** No string is listed twice: the last is not among the others, which are distinct too. */
  predicate Distinct(xs: seq<string>)
    decreases |xs|
  {
    |xs| == 0 || (xs[|xs| - 1] !in xs[..|xs| - 1] && Distinct(xs[..|xs| - 1]))
  }

  /** Distinct positions hold distinct strings. */
  lemma {:induction false} DistinctIndices(xs: seq<string>)
    requires Distinct(xs)
    ensures forall i, j :: 0 <= i < j < |xs| ==> xs[i] != xs[j]
    decreases |xs|
  {
    if |xs| > 0 {
      var pre := xs[..|xs| - 1];
      DistinctIndices(pre);
      forall i, j | 0 <= i < j < |xs| ensures xs[i] != xs[j] {
        if j < |xs| - 1 {
          assert xs[i] == pre[i] && xs[j] == pre[j];
        } else {
          assert xs[i] in pre;
        }
      }
    }
  }

  /** The string at position `p` is at no other position. */
  lemma DistinctAt(xs: seq<string>, p: nat)
    requires Distinct(xs) && p < |xs|
    ensures forall q :: 0 <= q < |xs| && q != p ==> xs[q] != xs[p]
  {
    DistinctIndices(xs);
  }

  /** The string at position `p` is at no earlier position. */
  lemma DistinctBefore(xs: seq<string>, p: nat)
    requires Distinct(xs) && p < |xs|
    ensures forall q :: 0 <= q < p ==> xs[q] != xs[p]
  {
    DistinctIndices(xs);
  }

  /** The string at position `p` is at no later position. */
  lemma DistinctAfter(xs: seq<string>, p: nat)
    requires Distinct(xs) && p < |xs|
    ensures forall q :: p < q < |xs| ==> xs[q] != xs[p]
  {
    DistinctIndices(xs);
  }

  /** A list whose distinct positions hold distinct strings is `Distinct`. */
  lemma {:induction false} IndicesDistinct(xs: seq<string>)
    requires forall i, j :: 0 <= i < j < |xs| ==> xs[i] != xs[j]
    ensures Distinct(xs)
    decreases |xs|
  {
    if |xs| > 0 {
      var pre := xs[..|xs| - 1];
      forall i, j | 0 <= i < j < |pre| ensures pre[i] != pre[j] {
        assert pre[i] == xs[i] && pre[j] == xs[j];
      }
      IndicesDistinct(pre);
      forall i | 0 <= i < |pre| ensures pre[i] != xs[|xs| - 1] {
        assert pre[i] == xs[i];
      }
    }
  }

  datatype Obj<V> = Obj(keys: seq<string>, vals: map<string, V>)

  /** The keys are listed once each, and each listed key has a value (a value under an unlisted key is not part of the object). */
  predicate Valid<V>(o: Obj<V>) {
    Distinct(o.keys) && forall i :: 0 <= i < |o.keys| ==> o.keys[i] in o.vals
  }

  function Empty<V>(): (r: Obj<V>)
    ensures Valid(r) && |r.keys| == 0
  {
    Obj([], map[])
  }

  predicate Has<V>(o: Obj<V>, k: string) {
    k in o.keys
  }

  /** `o[k]`, with `None` for a key the object does not have. */
  function Get<V>(o: Obj<V>, k: string): Option<V> {
    if k in o.keys && k in o.vals then Some(o.vals[k]) else None
  }

  /** `o[k] = v`: an existing key keeps its place, a new key goes last. */
  function Put<V>(o: Obj<V>, k: string, v: V): (r: Obj<V>)
    ensures r.keys == if Has(o, k) then o.keys else o.keys + [k]
    ensures Get(r, k) == Some(v)
    ensures forall k' :: k' != k ==> Get(r, k') == Get(o, k')
  {
    if k in o.keys then Obj(o.keys, o.vals[k := v])
    else Obj(o.keys + [k], o.vals[k := v])
  }

  /** Assigning keeps every key listed once and with a value. */
  lemma PutValid<V>(o: Obj<V>, k: string, v: V)
    requires Valid(o)
    ensures Valid(Put(o, k, v))
  {
    if k !in o.keys {
      assert (o.keys + [k])[..|o.keys|] == o.keys;
    }
  }

  /** The list without `k`, in the same order. */
  function Without(xs: seq<string>, k: string): (r: seq<string>)
    ensures forall x :: x in r <==> x in xs && x != k
    ensures Distinct(xs) ==> Distinct(r)
    decreases |xs|
  {
    if |xs| == 0 then []
    else
      var pre := xs[..|xs| - 1];
      var last := xs[|xs| - 1];
      var rest := Without(pre, k);
      assert forall x :: x in xs <==> x in pre || x == last;
      if last == k then rest
      else
        assert (rest + [last])[..|rest|] == rest;
        rest + [last]
  }

  /** `delete o[k]`: the other keys keep their order and values. */
  function Remove<V>(o: Obj<V>, k: string): (r: Obj<V>)
    requires Valid(o)
    ensures Valid(r)
    ensures r.keys == Without(o.keys, k)
    ensures Get(r, k) == None
    ensures forall k' :: k' != k ==> Get(r, k') == Get(o, k')
  {
    var keys := Without(o.keys, k);
    var vals := o.vals - {k};
    assert forall i :: 0 <= i < |keys| ==> keys[i] in vals by {
      forall i | 0 <= i < |keys| ensures keys[i] in vals {
        assert keys[i] in o.keys && keys[i] != k;
        var j :| 0 <= j < |o.keys| && o.keys[j] == keys[i];
      }
    }
    assert Distinct(keys);
    Obj(keys, vals)
  }

  /** The entries `[k, o[k]]` in key order, as `for (k in o)` visits them. */
  function Entries<V>(o: Obj<V>): (es: seq<(string, V)>)
    requires Valid(o)
    ensures |es| == |o.keys|
    ensures forall i :: 0 <= i < |es| ==> es[i] == (o.keys[i], o.vals[o.keys[i]])
  {
    seq(|o.keys|, i requires 0 <= i < |o.keys| => (o.keys[i], o.vals[o.keys[i]]))
  }

  /** `for (k in o)` visits each key of the object once, always with its own value, and nothing else. */
  lemma EntriesVisit<V>(o: Obj<V>)
    requires Valid(o)
    ensures forall i, j :: 0 <= i < j < |Entries(o)| ==> Entries(o)[i].0 != Entries(o)[j].0
    ensures forall k, v :: (k, v) in Entries(o) <==> Get(o, k) == Some(v)
  {
    var es := Entries(o);
    DistinctIndices(o.keys);
    forall k, v ensures (k, v) in es <==> Get(o, k) == Some(v) {
      if Get(o, k) == Some(v) {
        var i :| 0 <= i < |o.keys| && o.keys[i] == k;
        assert es[i] == (k, v);
      }
    }
  }
}

/** A plain JavaScript object with string keys, seen as the list of its own
    properties in enumeration order. Assigning `obj[k] = v` replaces the value
    in place when `k` is already a key and appends a new property otherwise.
    That is JavaScript's order for keys that are not array indices. JavaScript
    lists array-index keys (such as question numbers) first, in ascending
    order, so for those keys the two orders agree exactly when the keys are
    assigned in ascending order. */
module Props {
  import opened Wrappers

  function Keys<V>(p: seq<(string, V)>): set<string>
  {
    set i | 0 <= i < |p| :: p[i].0
  }

  predicate DistinctKeys<V>(p: seq<(string, V)>)
  {
    forall i, j :: 0 <= i < j < |p| ==> p[i].0 != p[j].0
  }

  /** `obj[k]`: the value of the first property named `k`. */
  function Get<V>(p: seq<(string, V)>, k: string): Option<V>
  {
    if p == [] then None
    else if p[0].0 == k then Some(p[0].1)
    else Get(p[1..], k)
  }

  /** `obj[k] = v`. */
  function Put<V>(p: seq<(string, V)>, k: string, v: V): seq<(string, V)>
  {
    if p == [] then [(k, v)]
    else if p[0].0 == k then [(k, v)] + p[1..]
    else [p[0]] + Put(p[1..], k, v)
  }

  /** The same object with every value transformed by `f`, keys and order kept. */
  function MapValues<V, W>(p: seq<(string, V)>, f: V -> W): (q: seq<(string, W)>)
    ensures |q| == |p|
    ensures forall i :: 0 <= i < |p| ==> q[i] == (p[i].0, f(p[i].1))
  {
    if p == [] then [] else [(p[0].0, f(p[0].1))] + MapValues(p[1..], f)
  }

  lemma {:induction false} KeysCons<V>(p: seq<(string, V)>)
    requires p != []
    ensures Keys(p) == {p[0].0} + Keys(p[1..])
  {
    forall k | k in Keys(p) ensures k in {p[0].0} + Keys(p[1..]) {
      var i :| 0 <= i < |p| && p[i].0 == k;
      if i > 0 { assert p[1..][i - 1].0 == k; }
    }
    forall k | k in Keys(p[1..]) ensures k in Keys(p) {
      var i :| 0 <= i < |p[1..]| && p[1..][i].0 == k;
      assert p[i + 1].0 == k;
    }
  }

  /** After `obj[k] = v`, reading `k` gives `v` and every other key reads as before. */
  lemma {:induction false} PutGet<V>(p: seq<(string, V)>, k: string, v: V, k': string)
    ensures Get(Put(p, k, v), k') == if k' == k then Some(v) else Get(p, k')
  {
    if p != [] && p[0].0 != k {
      PutGet(p[1..], k, v, k');
    }
  }

  /** After `obj[k] = v` the keys are the old keys plus `k`. */
  lemma {:induction false} PutKeys<V>(p: seq<(string, V)>, k: string, v: V)
    ensures Keys(Put(p, k, v)) == Keys(p) + {k}
  {
    if p == [] {
      assert Keys([(k, v)]) == {k} by { KeysCons([(k, v)]); }
    } else if p[0].0 == k {
      KeysCons(p);
      KeysCons([(k, v)] + p[1..]);
      assert ([(k, v)] + p[1..])[1..] == p[1..];
    } else {
      KeysCons(p);
      PutKeys(p[1..], k, v);
      KeysCons([p[0]] + Put(p[1..], k, v));
      assert ([p[0]] + Put(p[1..], k, v))[1..] == Put(p[1..], k, v);
    }
  }

  /** Assigning a new key appends it at the end. */
  lemma {:induction false} PutNewKeyAppends<V>(p: seq<(string, V)>, k: string, v: V)
    requires k !in Keys(p)
    ensures Put(p, k, v) == p + [(k, v)]
  {
    if p != [] {
      KeysCons(p);
      PutNewKeyAppends(p[1..], k, v);
      assert [p[0]] + (p[1..] + [(k, v)]) == p + [(k, v)];
    }
  }

  /** Transforming the values commutes with an assignment. */
  lemma {:induction false} MapValuesPut<V, W>(p: seq<(string, V)>, k: string, v: V, f: V -> W)
    ensures MapValues(Put(p, k, v), f) == Put(MapValues(p, f), k, f(v))
  {
    if p != [] && p[0].0 != k {
      MapValuesPut(p[1..], k, v, f);
      assert MapValues(p, f)[1..] == MapValues(p[1..], f);
    } else if p != [] {
      assert MapValues(p, f)[1..] == MapValues(p[1..], f);
    }
  }

  /** The object obtained by assigning the pairs, in order, to an empty object. */
  function PutAll<V>(pairs: seq<(string, V)>): seq<(string, V)>
    decreases |pairs|
  {
    if pairs == [] then []
    else Put(PutAll(pairs[..|pairs| - 1]), pairs[|pairs| - 1].0, pairs[|pairs| - 1].1)
  }

  lemma {:induction false} DistinctCons<V>(p: seq<(string, V)>)
    requires p != []
    ensures DistinctKeys(p) <==> p[0].0 !in Keys(p[1..]) && DistinctKeys(p[1..])
  {
    if DistinctKeys(p) {
      forall k | k in Keys(p[1..]) ensures k != p[0].0 {
        var i :| 0 <= i < |p[1..]| && p[1..][i].0 == k;
        assert p[i + 1].0 == k;
      }
    }
    if p[0].0 !in Keys(p[1..]) && DistinctKeys(p[1..]) {
      forall i, j | 0 <= i < j < |p| ensures p[i].0 != p[j].0 {
        if i == 0 {
          assert p[1..][j - 1].0 == p[j].0;
        } else {
          assert p[1..][i - 1] == p[i] && p[1..][j - 1] == p[j];
        }
      }
    }
  }

  /** An assignment keeps the keys distinct. */
  lemma {:induction false} PutDistinct<V>(p: seq<(string, V)>, k: string, v: V)
    requires DistinctKeys(p)
    ensures DistinctKeys(Put(p, k, v))
  {
    if p == [] {
    } else if p[0].0 == k {
      DistinctCons(p);
      DistinctCons([(k, v)] + p[1..]);
      assert ([(k, v)] + p[1..])[1..] == p[1..];
    } else {
      DistinctCons(p);
      PutDistinct(p[1..], k, v);
      PutKeys(p[1..], k, v);
      var q := [p[0]] + Put(p[1..], k, v);
      assert q[1..] == Put(p[1..], k, v);
      DistinctCons(q);
    }
  }

  /** An object built by assignments has one property per distinct key assigned. */
  lemma {:induction false} PutAllKeys<V>(pairs: seq<(string, V)>)
    ensures DistinctKeys(PutAll(pairs))
    ensures Keys(PutAll(pairs)) == Keys(pairs)
    decreases |pairs|
  {
    if pairs != [] {
      var n := |pairs| - 1;
      PutAllKeys(pairs[..n]);
      PutDistinct(PutAll(pairs[..n]), pairs[n].0, pairs[n].1);
      PutKeys(PutAll(pairs[..n]), pairs[n].0, pairs[n].1);
      assert Keys(pairs) == Keys(pairs[..n]) + {pairs[n].0} by {
        forall k | k in Keys(pairs) ensures k in Keys(pairs[..n]) + {pairs[n].0} {
          var i :| 0 <= i < |pairs| && pairs[i].0 == k;
          if i < n { assert pairs[..n][i].0 == k; }
        }
        forall k | k in Keys(pairs[..n]) ensures k in Keys(pairs) {
          var i :| 0 <= i < n && pairs[..n][i].0 == k;
          assert pairs[i].0 == k;
        }
      }
    }
  }

  /** Assigning pairs with distinct keys gives back exactly those pairs, in order. */
  lemma {:induction false} PutAllOfDistinct<V>(pairs: seq<(string, V)>)
    requires DistinctKeys(pairs)
    ensures PutAll(pairs) == pairs
    decreases |pairs|
  {
    if pairs != [] {
      var n := |pairs| - 1;
      assert DistinctKeys(pairs[..n]);
      PutAllOfDistinct(pairs[..n]);
      assert pairs[n].0 !in Keys(pairs[..n]);
      PutNewKeyAppends(pairs[..n], pairs[n].0, pairs[n].1);
      assert pairs[..n] + [pairs[n]] == pairs;
    }
  }

  /** Transforming the values commutes with building the object. */
  lemma {:induction false} MapValuesPutAll<V, W>(pairs: seq<(string, V)>, f: V -> W)
    ensures MapValues(PutAll(pairs), f) == PutAll(MapValues(pairs, f))
    decreases |pairs|
  {
    if pairs != [] {
      var n := |pairs| - 1;
      MapValuesPutAll(pairs[..n], f);
      MapValuesPut(PutAll(pairs[..n]), pairs[n].0, pairs[n].1, f);
      assert MapValues(pairs, f)[..n] == MapValues(pairs[..n], f);
    }
  }
}

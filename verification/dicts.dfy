/**
 * Python dictionaries as sequences of key/value pairs in insertion order.
 * The order matters to the modelled program: it decides the order of the
 * generated config text, of error messages and of rewritten file sections.
 */
module Dicts {
  import opened Wrappers

  type Dict<K, V> = seq<(K, V)>

  function Keys<K, V>(d: Dict<K, V>): (ks: seq<K>)
    ensures |ks| == |d|
    ensures forall i :: 0 <= i < |d| ==> ks[i] == d[i].0
  {
    if d == [] then [] else [d[0].0] + Keys(d[1..])
  }

  /** Python dicts never hold a key twice. */
  ghost predicate Unique<K, V>(d: Dict<K, V>) {
    forall i, j :: 0 <= i < j < |d| ==> d[i].0 != d[j].0
  }

  predicate Has<K(==), V>(d: Dict<K, V>, k: K) {
    exists i :: 0 <= i < |d| && d[i].0 == k
  }

  lemma HasKeys<K, V>(d: Dict<K, V>, k: K)
    ensures Has(d, k) <==> k in Keys(d)
  {
    if k in Keys(d) {
      var i :| 0 <= i < |d| && Keys(d)[i] == k;
      assert d[i].0 == k;
    }
  }

  /** `d.get(k)`: the value stored under `k`, or None. */
  function Get<K(==), V>(d: Dict<K, V>, k: K): (r: Option<V>)
    ensures r.Some? <==> Has(d, k)
    ensures r.Some? ==> exists i :: 0 <= i < |d| && d[i] == (k, r.value)
  {
    if d == [] then None
    else if d[0].0 == k then Some(d[0].1)
    else
      var r := Get(d[1..], k);
      assert r.Some? ==> exists i :: 0 <= i < |d| && d[i] == (k, r.value) by {
        if r.Some? {
          var i :| 0 <= i < |d[1..]| && d[1..][i] == (k, r.value);
          assert d[i + 1] == (k, r.value);
        }
      }
      assert Has(d, k) ==> r.Some? by {
        if Has(d, k) {
          var i :| 0 <= i < |d| && d[i].0 == k;
          assert i > 0 && d[1..][i - 1].0 == k;
        }
      }
      r
  }

  /** In a dict without repeated keys, every stored pair is what `Get` finds. */
  lemma {:induction false} GetAt<K, V>(d: Dict<K, V>, i: nat)
    requires Unique(d) && i < |d|
    ensures Get(d, d[i].0) == Some(d[i].1)
  {
    if i > 0 {
      assert d[0].0 != d[i].0;
      assert d[1..][i - 1] == d[i];
      GetAt(d[1..], i - 1);
    }
  }

  /** Membership of a key in a dict that starts with pair `p`. */
  lemma HasCons<K, V>(p: (K, V), d: Dict<K, V>, x: K)
    ensures Has([p] + d, x) <==> p.0 == x || Has(d, x)
  {
    var r := [p] + d;
    if p.0 == x {
      assert r[0].0 == x;
    }
    if Has(r, x) && p.0 != x {
      var i :| 0 <= i < |r| && r[i].0 == x;
      assert d[i - 1].0 == x;
    }
    if Has(d, x) {
      var i :| 0 <= i < |d| && d[i].0 == x;
      assert r[i + 1].0 == x;
    }
  }

  /** `d[k] = v`: replaces the value in place when `k` is present, appends otherwise. */
  function Put<K(==,!new), V>(d: Dict<K, V>, k: K, v: V): (r: Dict<K, V>)
    ensures |r| == if Has(d, k) then |d| else |d| + 1
  {
    if d == [] then [(k, v)]
    else if d[0].0 == k then [(k, v)] + d[1..]
    else
      HasCons(d[0], d[1..], k);
      assert d == [d[0]] + d[1..];
      [d[0]] + Put(d[1..], k, v)
  }

  /** After `d[k] = v`, `k` finds `v` and every other key finds what it found before. */
  lemma {:induction false} PutGet<K(!new), V>(d: Dict<K, V>, k: K, v: V, x: K)
    ensures Get(Put(d, k, v), x) == if x == k then Some(v) else Get(d, x)
  {
    if d != [] && d[0].0 != k {
      PutGet(d[1..], k, v, x);
    }
  }

  /** `d[k] = v` keeps the key order, appending `k` only when it is new. */
  lemma {:induction false} PutKeys<K(!new), V>(d: Dict<K, V>, k: K, v: V)
    ensures Keys(Put(d, k, v)) == if Has(d, k) then Keys(d) else Keys(d) + [k]
  {
    if d != [] {
      assert d == [d[0]] + d[1..];
      HasCons(d[0], d[1..], k);
      if d[0].0 != k {
        PutKeys(d[1..], k, v);
        var r := Put(d, k, v);
        assert r[1..] == Put(d[1..], k, v);
      }
    }
  }

  /** `d[k] = v` never repeats a key. */
  lemma {:induction false} PutUnique<K(!new), V>(d: Dict<K, V>, k: K, v: V)
    requires Unique(d)
    ensures Unique(Put(d, k, v))
  {
    var r := Put(d, k, v);
    if d != [] && d[0].0 == k {
      forall i, j | 0 <= i < j < |r| ensures r[i].0 != r[j].0 {
        assert r[i].0 == d[i].0 && r[j].0 == d[j].0;
      }
    } else if d != [] {
      var rest := Put(d[1..], k, v);
      assert r == [d[0]] + rest;
      assert Unique(d[1..]);
      PutUnique(d[1..], k, v);
      assert !Has(d[1..], d[0].0) by {
        forall i | 0 <= i < |d[1..]| ensures d[1..][i].0 != d[0].0 {
          assert d[1..][i] == d[i + 1];
        }
      }
      assert !Has(rest, d[0].0) by {
        PutGet(d[1..], k, v, d[0].0);
      }
      forall i, j | 0 <= i < j < |r| ensures r[i].0 != r[j].0 {
        if i == 0 {
          assert rest[j - 1] == r[j];
        } else {
          assert rest[i - 1] == r[i] && rest[j - 1] == r[j];
        }
      }
    }
  }

  /** `d.pop(k)` on a dict that may or may not hold `k`: every pair under `k` goes. */
  function Remove<K(==), V>(d: Dict<K, V>, k: K): (r: Dict<K, V>)
    ensures |r| <= |d|
  {
    if d == [] then []
    else if d[0].0 == k then Remove(d[1..], k)
    else [d[0]] + Remove(d[1..], k)
  }

  /** Exactly the pairs under other keys survive, in their old order. */
  lemma {:induction false} RemoveMembers<K, V>(d: Dict<K, V>, k: K, p: (K, V))
    ensures p in Remove(d, k) <==> p in d && p.0 != k
  {
    if d != [] {
      RemoveMembers(d[1..], k, p);
      assert p in d <==> p == d[0] || p in d[1..] by {
        assert d == [d[0]] + d[1..];
      }
    }
  }

  /** `pop` of a key that is not there changes nothing. */
  lemma {:induction false} RemoveAbsent<K, V>(d: Dict<K, V>, k: K)
    requires !Has(d, k)
    ensures Remove(d, k) == d
  {
    if d != [] {
      assert d[0].0 != k;
      assert !Has(d[1..], k) by {
        forall i | 0 <= i < |d[1..]| ensures d[1..][i].0 != k {
          assert d[1..][i] == d[i + 1];
        }
      }
      RemoveAbsent(d[1..], k);
    }
  }

  /** After `pop`, `k` is gone and every other key finds what it found before. */
  lemma {:induction false} RemoveGet<K, V>(d: Dict<K, V>, k: K, x: K)
    ensures Get(Remove(d, k), x) == if x == k then None else Get(d, x)
  {
    if d != [] {
      RemoveGet(d[1..], k, x);
    }
  }

  /** `pop` never creates a repeated key. */
  lemma {:induction false} RemoveUnique<K, V>(d: Dict<K, V>, k: K)
    requires Unique(d)
    ensures Unique(Remove(d, k))
  {
    if d != [] {
      assert Unique(d[1..]);
      RemoveUnique(d[1..], k);
      var rest := Remove(d[1..], k);
      if d[0].0 != k {
        var r := [d[0]] + rest;
        forall i, j | 0 <= i < j < |r| ensures r[i].0 != r[j].0 {
          if i == 0 {
            assert r[j] == rest[j - 1];
            RemoveMembers(d[1..], k, r[j]);
            var m :| 0 <= m < |d[1..]| && d[1..][m] == r[j];
            assert d[m + 1] == r[j];
          } else {
            assert r[i] == rest[i - 1] && r[j] == rest[j - 1];
          }
        }
      }
    }
  }

  /** Appending a key that is not yet present. */
  lemma GetAppend<K, V>(d: Dict<K, V>, k: K, v: V, x: K)
    ensures Get(d + [(k, v)], x) == if Has(d, x) then Get(d, x) else if x == k then Some(v) else None
  {
    if d != [] {
      assert (d + [(k, v)])[1..] == d[1..] + [(k, v)];
      GetAppend(d[1..], k, v, x);
      if d[0].0 != x && Has(d, x) {
        var i :| 0 <= i < |d| && d[i].0 == x;
        assert d[1..][i - 1].0 == x;
      }
    }
  }

  /** Setting a key the dict does not hold appends the pair. */
  lemma {:induction false} PutNew<K(!new), V>(d: Dict<K, V>, k: K, v: V)
    requires !Has(d, k)
    ensures Put(d, k, v) == d + [(k, v)]
  {
    if d != [] {
      assert d[0].0 != k;
      assert !Has(d[1..], k) by {
        forall i | 0 <= i < |d[1..]| ensures d[1..][i].0 != k {
          assert d[1..][i] == d[i + 1];
        }
      }
      PutNew(d[1..], k, v);
      assert d == [d[0]] + d[1..];
    }
  }

  /** In a dict without repeats, the last key is not among the earlier ones. */
  lemma NotInPrefix<K, V>(d: Dict<K, V>)
    requires Unique(d) && d != []
    ensures !Has(d[..|d| - 1], d[|d| - 1].0)
  {
    var prefix := d[..|d| - 1];
    forall j | 0 <= j < |prefix| ensures prefix[j].0 != d[|d| - 1].0 {
      assert prefix[j] == d[j];
    }
  }

  /** A key missing from a dict is missing from its prefix and is not its last key. */
  lemma HasPrefix<K, V>(d: Dict<K, V>, k: K)
    requires !Has(d, k) && d != []
    ensures !Has(d[..|d| - 1], k) && d[|d| - 1].0 != k
  {
    var prefix := d[..|d| - 1];
    forall j | 0 <= j < |prefix| ensures prefix[j].0 != k {
      assert prefix[j] == d[j];
    }
  }
}

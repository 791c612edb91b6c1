/** JavaScript's Map: pairs in the order their keys were first set. */
module OrderedMaps {
  import opened Options

  type OMap<K, V> = seq<(K, V)>

  ghost predicate Distinct<K, V>(m: OMap<K, V>) {
    forall i, j :: 0 <= i < j < |m| ==> m[i].0 != m[j].0
  }

  function Keys<K, V>(m: OMap<K, V>): set<K> { set i | 0 <= i < |m| :: m[i].0 }

  function Find<K(==), V>(m: OMap<K, V>, k: K): (r: Option<V>)
    ensures r.Some? <==> k in Keys(m)
    ensures r.Some? ==> (k, r.value) in m
  {
    if m == [] then None
    else if m[0].0 == k then Some(m[0].1)
    else
      var r := Find(m[1..], k);
      assert m == [m[0]] + m[1..];
      assert k in Keys(m) <==> k in Keys(m[1..]) by {
        if k in Keys(m) {
          var i :| 0 <= i < |m| && m[i].0 == k;
          assert m[1..][i - 1].0 == k;
        }
        if k in Keys(m[1..]) {
          var i :| 0 <= i < |m| - 1 && m[1..][i].0 == k;
          assert m[i + 1].0 == k;
        }
      }
      r
  }

  /** Sets a key: in its place when it has one, else at the end. */
  function Put<K(==), V>(m: OMap<K, V>, k: K, v: V): (r: OMap<K, V>)
    ensures Distinct(m) ==> Distinct(r)
    ensures Keys(r) == Keys(m) + {k}
    ensures Find(r, k) == Some(v)
  {
    if m == [] then
      KeysOfCons((k, v), m);
      assert [(k, v)] + m == [(k, v)];
      [(k, v)]
    else if m[0].0 == k then
      assert m == [m[0]] + m[1..];
      assert ([(k, v)] + m[1..])[1..] == m[1..];
      KeysOfCons(m[0], m[1..]);
      KeysOfCons((k, v), m[1..]);
      [(k, v)] + m[1..]
    else
      var rest := Put(m[1..], k, v);
      assert m == [m[0]] + m[1..];
      assert ([m[0]] + rest)[1..] == rest;
      PutKeys(m, rest, k);
      [m[0]] + rest
  }

  function Delete<K(==), V>(m: OMap<K, V>, k: K): OMap<K, V> {
    if m == [] then []
    else if m[0].0 == k then m[1..]
    else [m[0]] + Delete(m[1..], k)
  }

  lemma {:induction false} DeleteAbsent<K, V>(m: OMap<K, V>, k: K)
    requires forall i :: 0 <= i < |m| ==> m[i].0 != k
    ensures Delete(m, k) == m
  {
    if m != [] { DeleteAbsent(m[1..], k); }
  }

  lemma {:induction false} DeleteAt<K, V>(m: OMap<K, V>, i: nat)
    requires i < |m| && forall j :: 0 <= j < i ==> m[j].0 != m[i].0
    ensures Delete(m, m[i].0) == m[..i] + m[i + 1..]
  {
    if i > 0 {
      assert m[1..][i - 1] == m[i];
      DeleteAt(m[1..], i - 1);
      assert [m[0]] + m[1..][..i - 1] == m[..i];
      assert m[1..][i..] == m[i + 1..];
    }
  }

  lemma {:induction false} FindAt<K, V>(m: OMap<K, V>, i: nat)
    requires i < |m| && forall j :: 0 <= j < i ==> m[j].0 != m[i].0
    ensures Find(m, m[i].0) == Some(m[i].1)
  {
    if i > 0 {
      assert m[1..][i - 1] == m[i];
      FindAt(m[1..], i - 1);
    }
  }

  lemma {:induction false} PutSparesOthers<K, V>(m: OMap<K, V>, k: K, v: V, j: K)
    requires j != k
    ensures Find(Put(m, k, v), j) == Find(m, j)
  {
    if m != [] && m[0].0 != k {
      PutSparesOthers(m[1..], k, v, j);
      assert ([m[0]] + Put(m[1..], k, v))[1..] == Put(m[1..], k, v);
    } else if m != [] {
      assert ([(k, v)] + m[1..])[1..] == m[1..];
    }
  }

  lemma PutKeys<K, V>(m: OMap<K, V>, rest: OMap<K, V>, k: K)
    requires m != [] && Keys(rest) == Keys(m[1..]) + {k} && m[0].0 != k
    requires Distinct(m[1..]) ==> Distinct(rest)
    ensures Keys([m[0]] + rest) == Keys(m) + {k}
    ensures Distinct(m) ==> Distinct([m[0]] + rest)
  {
    KeysOfCons(m[0], rest);
    KeysOfCons(m[0], m[1..]);
    assert m == [m[0]] + m[1..];
    if Distinct(m) {
      assert Distinct(m[1..]) by { assert forall i :: 0 <= i < |m| - 1 ==> m[1..][i] == m[i + 1]; }
      forall i | 0 <= i < |rest|
        ensures rest[i].0 != m[0].0
      {
        assert rest[i].0 in Keys(rest);
        if rest[i].0 != k {
          var j :| 0 <= j < |m| - 1 && m[1..][j].0 == rest[i].0;
          assert m[j + 1].0 == rest[i].0;
        }
      }
    }
  }

  lemma KeysOfCons<K, V>(p: (K, V), m: OMap<K, V>)
    ensures Keys([p] + m) == {p.0} + Keys(m)
  {
    forall k | k in {p.0} + Keys(m)
      ensures k in Keys([p] + m)
    {
      if k == p.0 { assert ([p] + m)[0].0 == k; } else {
        var i :| 0 <= i < |m| && m[i].0 == k;
        assert ([p] + m)[i + 1].0 == k;
      }
    }
  }
}

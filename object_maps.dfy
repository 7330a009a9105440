/** A JavaScript object used as a dictionary (`{ [key: string]: V }`): string
    keys, each at most once, kept in insertion order (the order
    `Object.keys` reports). It is an association list whose keys are unique. */
module ObjectMaps {
  import opened Strings
  import opened Seqs

  predicate UniqueKeys<V>(m: seq<(string, V)>)
  {
    forall i, j :: 0 <= i < j < |m| ==> m[i].0 != m[j].0
  }

  type Object<V> = m: seq<(string, V)> | UniqueKeys(m) witness []

  /** `Object.keys(m)`. */
  function Keys<V>(m: seq<(string, V)>): (r: seq<string>)
    ensures |r| == |m| && forall i :: 0 <= i < |m| ==> r[i] == m[i].0
  {
    seq(|m|, i requires 0 <= i < |m| => m[i].0)
  }

  /** `m[k]`, None when k is not a key. */
  function Get<V>(m: seq<(string, V)>, k: string): (r: Option<V>)
    ensures r.None? <==> forall i :: 0 <= i < |m| ==> m[i].0 != k
    ensures UniqueKeys(m) ==> forall i :: 0 <= i < |m| && m[i].0 == k ==> r == Some(m[i].1)
  {
    if m == [] then None
    else if m[0].0 == k then Some(m[0].1)
    else Get(m[1..], k)
  }

  /** `m[k] = v`: an existing key keeps its place, a new key goes last. */
  function Put<V>(m: Object<V>, k: string, v: V): (r: Object<V>)
    ensures Get(r, k) == Some(v)
    ensures forall k' :: k' != k ==> Get(r, k') == Get(m, k')
    ensures Keys(r) == if Get(m, k).Some? then Keys(m) else Keys(m) + [k]
  {
    if Get(m, k).Some? then
      var i :| 0 <= i < |m| && m[i].0 == k;
      var r := m[i := (k, v)];
      assert UniqueKeys(r);
      ReplaceAt(m, i, v);
      assert Keys(r) == Keys(m);
      r
    else
      var r := m + [(k, v)];
      AppendNew(m, k, v);
      assert Keys(r) == Keys(m) + [k];
      r
  }

  lemma ReplaceAt<V>(m: Object<V>, i: nat, v: V)
    requires i < |m|
    ensures UniqueKeys(m[i := (m[i].0, v)])
    ensures Get(m[i := (m[i].0, v)], m[i].0) == Some(v)
    ensures forall k' :: k' != m[i].0 ==> Get(m[i := (m[i].0, v)], k') == Get(m, k')
  {
    var r := m[i := (m[i].0, v)];
    assert UniqueKeys(r);
    assert r[i] == (m[i].0, v);
    forall k' | k' != m[i].0
      ensures Get(r, k') == Get(m, k')
    {
      if Get(m, k').Some? {
        var j :| 0 <= j < |m| && m[j].0 == k';
        assert r[j] == m[j];
      }
    }
  }

  lemma AppendNew<V>(m: Object<V>, k: string, v: V)
    requires Get(m, k).None?
    ensures UniqueKeys(m + [(k, v)])
    ensures Get(m + [(k, v)], k) == Some(v)
    ensures forall k' :: k' != k ==> Get(m + [(k, v)], k') == Get(m, k')
  {
    var r := m + [(k, v)];
    assert UniqueKeys(r);
    assert r[|m|] == (k, v);
    forall k' | k' != k
      ensures Get(r, k') == Get(m, k')
    {
      if Get(m, k').Some? {
        var j :| 0 <= j < |m| && m[j].0 == k';
        assert r[j] == m[j];
      }
    }
  }

  /** `delete m[k]`: the other keys keep their values and their order. */
  function Delete<V>(m: Object<V>, k: string): (r: Object<V>)
    ensures Get(r, k).None?
    ensures forall k' :: k' != k ==> Get(r, k') == Get(m, k')
    ensures |r| == if Get(m, k).Some? then |m| - 1 else |m|
  {
    if m == [] then []
    else if m[0].0 == k then
      assert Get(m[1..], k).None?;
      m[1..]
    else
      var rest := Delete(m[1..], k);
      assert forall i :: 0 <= i < |rest| ==> Get(m[1..], rest[i].0).Some?;
      [m[0]] + rest
  }

  /** After `delete m[k]`, `Object.keys` lists the remaining keys in their
      old order: the old key list with k filtered out. */
  lemma {:induction false} DeleteKeepsKeyOrder<V>(m: Object<V>, k: string)
    ensures Keys(Delete(m, k)) == Filter(Keys(m), (k': string) => k' != k)
  {
    if m != [] {
      var tail: Object<V> := m[1..];
      assert Keys(m) == [m[0].0] + Keys(tail);
      if m[0].0 == k {
        assert forall i :: 0 <= i < |tail| ==> Keys(tail)[i] != k;
        FilterAll(Keys(tail), (k': string) => k' != k);
      } else {
        DeleteKeepsKeyOrder(tail, k);
        var rest := Delete(tail, k);
        assert Keys([m[0]] + rest) == [m[0].0] + Keys(rest);
      }
    }
  }

  /** `{ ...a, ...b }`: the entries of b written over a, in b's order. */
  function Spread<V>(a: Object<V>, b: Object<V>): (r: Object<V>)
    ensures |r| >= |a| && forall i :: 0 <= i < |a| ==> r[i].0 == a[i].0
    decreases |b|
  {
    if b == [] then a
    else
      var a' := Put(a, b[0].0, b[0].1);
      assert |a'| >= |a| && forall i :: 0 <= i < |a| ==> a'[i].0 == Keys(a')[i] == Keys(a)[i];
      Spread(a', b[1..])
  }

  /** Reading a spread object: b's value where b has the key, a's otherwise. */
  lemma {:induction false} SpreadGet<V>(a: Object<V>, b: Object<V>, k: string)
    ensures Get(Spread(a, b), k) == if Get(b, k).Some? then Get(b, k) else Get(a, k)
    decreases |b|
  {
    if b != [] {
      var a' := Put(a, b[0].0, b[0].1);
      var b' := b[1..];
      assert Spread(a, b) == Spread(a', b');
      SpreadGet(a', b', k);
      HeadKey(b);
    }
  }

  /** The first key of an object is absent from the rest of it. */
  lemma HeadKey<V>(b: Object<V>)
    requires b != []
    ensures Get(b, b[0].0) == Some(b[0].1) && Get(b[1..], b[0].0).None?
  {
    assert forall i :: 0 <= i < |b[1..]| ==> b[1..][i].0 == b[i + 1].0;
  }

  /** `Object.keys(m)[0]`. */
  function FirstKey<V>(m: seq<(string, V)>): (r: Option<string>)
    ensures r.Some? <==> |m| > 0
    ensures r.Some? ==> r.value == Keys(m)[0] && Get(m, r.value).Some?
  {
    if m == [] then None else Some(m[0].0)
  }

  /** Spreading new entries over an object never changes its first key. */
  lemma SpreadKeepsFirstKey<V>(a: Object<V>, b: Object<V>)
    requires |a| > 0
    ensures FirstKey(Spread(a, b)) == FirstKey(a)
  {
  }
}

/** String-keyed, insertion-ordered maps as JavaScript's `Map` keeps them:
    a sequence of entries whose keys are distinct. Setting a present key replaces its value
    in place; setting a new key appends it. Iteration follows the sequence. */
module OrderedMap {
  import opened Wrappers

  function Keys<V>(m: seq<(string, V)>): (ks: seq<string>)
    ensures |ks| == |m|
    ensures forall i :: 0 <= i < |m| ==> ks[i] == m[i].0
  {
    seq(|m|, i requires 0 <= i < |m| => m[i].0)
  }

  predicate DistinctKeys<V>(m: seq<(string, V)>) {
    forall i, j :: 0 <= i < j < |m| ==> m[i].0 != m[j].0
  }

  /** The position of key `k`, or -1 when it is absent. */
  function Find<V>(m: seq<(string, V)>, k: string): (r: int)
    ensures -1 <= r < |m|
    ensures r >= 0 ==> m[r].0 == k && forall j :: 0 <= j < r ==> m[j].0 != k
    ensures r == -1 ==> forall j :: 0 <= j < |m| ==> m[j].0 != k
  {
    if |m| == 0 then -1
    else if m[0].0 == k then 0
    else
      var i := Find(m[1..], k);
      if i < 0 then -1 else i + 1
  }

  /** `map.has(k)` */
  predicate Has<V>(m: seq<(string, V)>, k: string) {
    Find(m, k) >= 0
  }

  /** `map.get(k)`, with `None` for a missing key. */
  function Get<V>(m: seq<(string, V)>, k: string): Option<V>
  {
    var i := Find(m, k);
    if i < 0 then None else Some(m[i].1)
  }

  /** `map.set(k, v)` */
  function Put<V>(m: seq<(string, V)>, k: string, v: V): (r: seq<(string, V)>)
    ensures Get(r, k) == Some(v)
    ensures forall k' :: k' != k ==> Get(r, k') == Get(m, k')
    ensures Has(m, k) ==> Keys(r) == Keys(m)
    ensures !Has(m, k) ==> Keys(r) == Keys(m) + [k]
    ensures DistinctKeys(m) ==> DistinctKeys(r)
  {
    var i := Find(m, k);
    if i < 0 then
      var r := m + [(k, v)];
      assert forall k' :: k' != k ==> Find(r, k') == Find(m, k') by {
        forall k' | k' != k ensures Find(r, k') == Find(m, k') {
          FindAppend(m, (k, v), k');
        }
      }
      FindAppend(m, (k, v), k);
      r
    else
      var r := m[i := (k, v)];
      assert forall k' :: k' != k ==> Find(r, k') == Find(m, k') by {
        forall k' | k' != k ensures Find(r, k') == Find(m, k') {
          FindUpdate(m, i, v, k');
        }
      }
      FindUpdate(m, i, v, k);
      r
  }

  /** Every entry after `Put` is the new pair or the entry that was
      already at that position. */
  lemma {:induction false} PutEntries<V>(m: seq<(string, V)>, k: string, v: V)
    ensures forall i :: 0 <= i < |Put(m, k, v)| ==>
      Put(m, k, v)[i] == (k, v) || (i < |m| && Put(m, k, v)[i] == m[i])
  {
  }

  lemma {:induction false} FindAppend<V>(m: seq<(string, V)>, e: (string, V), k: string)
    ensures Find(m + [e], k) == if Find(m, k) >= 0 then Find(m, k) else if e.0 == k then |m| else -1
  {
    var r := Find(m + [e], k);
    var f := Find(m, k);
    if f >= 0 {
      assert (m + [e])[f].0 == k;
    } else if e.0 == k {
      assert (m + [e])[|m|].0 == k;
    }
  }

  lemma {:induction false} FindUpdate<V>(m: seq<(string, V)>, i: nat, v: V, k: string)
    requires i < |m| && Find(m, m[i].0) == i
    ensures Find(m[i := (m[i].0, v)], k) == Find(m, k)
  {
    var r := m[i := (m[i].0, v)];
    var a := Find(r, k);
    var b := Find(m, k);
    assert forall j :: 0 <= j < |m| ==> r[j].0 == m[j].0;
    if a >= 0 && b >= 0 {
      assert a == b;
    }
  }

  /** `Array.from(map.entries()).map(f)` re-wrapped as a map: each value is
      projected, keys and their order are kept. */
  function MapValues<V, W>(m: seq<(string, V)>, f: V -> W): (r: seq<(string, W)>)
    ensures |r| == |m|
    ensures forall i :: 0 <= i < |m| ==> r[i] == (m[i].0, f(m[i].1))
  {
    seq(|m|, i requires 0 <= i < |m| => (m[i].0, f(m[i].1)))
  }

  /** Projection keeps the key sequence, so membership and lookup carry over. */
  lemma {:induction false} MapValuesKeepsKeys<V, W>(m: seq<(string, V)>, f: V -> W)
    ensures Keys(MapValues(m, f)) == Keys(m)
    ensures forall k :: Find(MapValues(m, f), k) == Find(m, k)
  {
    var r := MapValues(m, f);
    forall k ensures Find(r, k) == Find(m, k) {
      var a := Find(r, k);
      var b := Find(m, k);
      if a >= 0 && b >= 0 {
        assert a == b;
      }
    }
  }
}

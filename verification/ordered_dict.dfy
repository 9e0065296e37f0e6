/** An insertion-ordered dictionary with string keys, the behaviour of the
Python `dict` that every resource router keeps at module level.

A dictionary is the sequence of its entries in insertion order. Assigning to a
key that is already present replaces its value in place; assigning to a new key
appends an entry at the end; deleting a key removes its entry and keeps the
order of the others. `AsMap` forgets the order, and the lemmas at the end show
that every operation here refines the matching operation on Dafny's `map`.
*/
module OrderedDict {
  import opened Replies

  datatype Entry<V> = Entry(key: string, value: V)

  type Dict<V> = seq<Entry<V>>

  /** The keys present in `d`. */
  function Keys<V>(d: Dict<V>): set<string>
  {
    set i | 0 <= i < |d| :: d[i].key
  }

  /** No key occurs twice: the invariant every reachable dictionary keeps. */
  predicate Keyed<V>(d: Dict<V>)
  {
    forall i, j :: 0 <= i < j < |d| ==> d[i].key != d[j].key
  }

  /** The values in insertion order: Python's `list(d.values())`. */
  function Values<V>(d: Dict<V>): (vs: seq<V>)
    ensures |vs| == |d|
    ensures forall i :: 0 <= i < |d| ==> vs[i] == d[i].value
  {
    seq(|d|, i requires 0 <= i < |d| => d[i].value)
  }

  /** The order-free view of `d`, the first entry of a key winning. */
  function AsMap<V>(d: Dict<V>): (m: map<string, V>)
    ensures m.Keys == Keys(d)
    decreases |d|
  {
    if |d| == 0 then map[]
    else
      KeysSplit(d);
      AsMap(d[1..])[d[0].key := d[0].value]
  }

  /** Python's `d.get(k)`: the value stored under `k`, or None. */
  function Get<V>(d: Dict<V>, k: string): (r: Option<V>)
    ensures r.Some? <==> k in Keys(d)
    ensures r.Some? ==> exists i :: 0 <= i < |d| && d[i] == Entry(k, r.value)
    decreases |d|
  {
    if |d| == 0 then None
    else if d[0].key == k then Some(d[0].value)
    else
      KeysSplit(d);
      var r := Get(d[1..], k);
      if r.Some? then
        ghost var i :| 0 <= i < |d[1..]| && d[1..][i] == Entry(k, r.value);
        assert d[i + 1] == Entry(k, r.value);
        r
      else r
  }

  /** Python's `d[k] = v`: replaces the value of `k` in place when `k` is
      present, appends a new last entry otherwise. */
  function Put<V>(d: Dict<V>, k: string, v: V): (r: Dict<V>)
    ensures Keys(r) == Keys(d) + {k}
    ensures k !in Keys(d) ==> r == d + [Entry(k, v)]
    ensures k in Keys(d) ==> |r| == |d| && forall j :: 0 <= j < |d| ==> r[j].key == d[j].key
    ensures Get(r, k) == Some(v)
    decreases |d|
  {
    if |d| == 0 then
      KeysSplit([Entry(k, v)]);
      [Entry(k, v)]
    else if d[0].key == k then
      KeysSplit(d);
      KeysSplit([Entry(k, v)] + d[1..]);
      assert ([Entry(k, v)] + d[1..])[1..] == d[1..];
      [Entry(k, v)] + d[1..]
    else
      var t := Put(d[1..], k, v);
      PutStep(d, k, v, t);
      [d[0]] + t
  }

  /** Python's `del d[k]` when `k` is present (the routers check presence
      first); a dictionary without `k` is returned unchanged. */
  function Remove<V>(d: Dict<V>, k: string): (r: Dict<V>)
    ensures k !in Keys(d) ==> r == d
    ensures k in Keys(d) ==> |r| == |d| - 1
    ensures Keys(d) - {k} <= Keys(r) <= Keys(d)
    ensures Keyed(d) ==> k !in Keys(r)
    decreases |d|
  {
    if |d| == 0 then d
    else if d[0].key == k then
      KeysSplit(d);
      d[1..]
    else
      KeysSplit(d);
      var t := Remove(d[1..], k);
      KeysSplit([d[0]] + t);
      assert ([d[0]] + t)[1..] == t;
      assert k !in Keys(d) ==> [d[0]] + t == d by {
        if k !in Keys(d) {
          assert d == [d[0]] + d[1..];
        }
      }
      assert Keyed(d) ==> Keyed(d[1..]) by {
        if Keyed(d) {
          forall i, j | 0 <= i < j < |d[1..]|
            ensures d[1..][i].key != d[1..][j].key
          {
            assert d[1..][i] == d[i + 1] && d[1..][j] == d[j + 1];
          }
        }
      }
      [d[0]] + t
  }

  /** The inductive step of `Put` past a first entry with another key. */
  lemma PutStep<V>(d: Dict<V>, k: string, v: V, t: Dict<V>)
    requires |d| > 0 && d[0].key != k
    requires Keys(t) == Keys(d[1..]) + {k}
    requires k !in Keys(d[1..]) ==> t == d[1..] + [Entry(k, v)]
    requires k in Keys(d[1..]) ==> |t| == |d[1..]| && forall j :: 0 <= j < |d[1..]| ==> t[j].key == d[1..][j].key
    requires Get(t, k) == Some(v)
    ensures Keys([d[0]] + t) == Keys(d) + {k}
    ensures k !in Keys(d) ==> [d[0]] + t == d + [Entry(k, v)]
    ensures k in Keys(d) ==> |[d[0]] + t| == |d| && forall j :: 0 <= j < |d| ==> ([d[0]] + t)[j].key == d[j].key
    ensures Get([d[0]] + t, k) == Some(v)
  {
    var r := [d[0]] + t;
    KeysSplit(d);
    KeysSplit(r);
    assert r[1..] == t;
    if k !in Keys(d) {
      calc {
        r;
        [d[0]] + (d[1..] + [Entry(k, v)]);
        ([d[0]] + d[1..]) + [Entry(k, v)];
        { assert [d[0]] + d[1..] == d; }
        d + [Entry(k, v)];
      }
    } else {
      forall j | 0 <= j < |d|
        ensures r[j].key == d[j].key
      {
        if j > 0 {
          assert r[j] == t[j - 1] && d[j] == d[1..][j - 1];
        }
      }
    }
  }

  /** The keys of a non-empty dictionary are its first key and the keys of its tail. */
  lemma KeysSplit<V>(d: Dict<V>)
    requires |d| > 0
    ensures Keys(d) == {d[0].key} + Keys(d[1..])
  {
    forall k | k in Keys(d)
      ensures k in {d[0].key} + Keys(d[1..])
    {
      var i :| 0 <= i < |d| && d[i].key == k;
      if i > 0 {
        assert d[1..][i - 1] == d[i];
      }
    }
    forall k | k in Keys(d[1..])
      ensures k in Keys(d)
    {
      var i :| 0 <= i < |d[1..]| && d[1..][i].key == k;
      assert d[i + 1] == d[1..][i];
    }
  }

  /** A dictionary is keyed exactly when its tail is keyed and its first key
      does not occur again. */
  lemma KeyedSplit<V>(d: Dict<V>)
    requires |d| > 0
    ensures Keyed(d) <==> Keyed(d[1..]) && d[0].key !in Keys(d[1..])
  {
    KeysSplit(d);
    if Keyed(d) {
      forall i, j | 0 <= i < j < |d[1..]|
        ensures d[1..][i].key != d[1..][j].key
      {
        assert d[1..][i] == d[i + 1] && d[1..][j] == d[j + 1];
      }
      forall i | 0 <= i < |d[1..]|
        ensures d[1..][i].key != d[0].key
      {
        assert d[1..][i] == d[i + 1];
      }
    }
    if Keyed(d[1..]) && d[0].key !in Keys(d[1..]) {
      forall i, j | 0 <= i < j < |d|
        ensures d[i].key != d[j].key
      {
        assert d[j] == d[1..][j - 1];
        if i > 0 {
          assert d[i] == d[1..][i - 1];
        }
      }
    }
  }

  /** Lookup in the ordered dictionary agrees with lookup in its map view. */
  lemma {:induction false} GetAgrees<V>(d: Dict<V>, k: string)
    ensures Get(d, k) == (if k in AsMap(d) then Some(AsMap(d)[k]) else None)
    decreases |d|
  {
    if |d| > 0 && d[0].key != k {
      GetAgrees(d[1..], k);
    }
  }

  /** Assignment refines map update and keeps the dictionary keyed. */
  lemma {:induction false} PutRefines<V>(d: Dict<V>, k: string, v: V)
    requires Keyed(d)
    ensures Keyed(Put(d, k, v))
    ensures AsMap(Put(d, k, v)) == AsMap(d)[k := v]
    decreases |d|
  {
    var r := Put(d, k, v);
    if |d| == 0 {
      assert r == [Entry(k, v)];
      assert AsMap(r) == AsMap(r[1..])[k := v];
      assert r[1..] == [];
    } else if d[0].key == k {
      assert r == [Entry(k, v)] + d[1..];
      assert r[1..] == d[1..];
      KeyedSplit(d);
      KeyedSplit(r);
      calc {
        AsMap(r);
        AsMap(d[1..])[k := v];
        AsMap(d[1..])[k := d[0].value][k := v];
        AsMap(d)[k := v];
      }
    } else {
      var t := Put(d[1..], k, v);
      assert r == [d[0]] + t;
      KeyedSplit(d);
      PutRefines(d[1..], k, v);
      ConsRefines(d[0], t);
      UpdatesCommute(AsMap(d[1..]), k, v, d[0].key, d[0].value);
    }
  }

  lemma UpdatesCommute<V>(m: map<string, V>, a: string, x: V, b: string, y: V)
    requires a != b
    ensures m[a := x][b := y] == m[b := y][a := x]
  {
  }

  /** Prepending an entry whose key is new to a keyed dictionary keeps it keyed
      and adds that binding to the map view. */
  lemma ConsRefines<V>(e: Entry<V>, t: Dict<V>)
    ensures Keyed([e] + t) <==> Keyed(t) && e.key !in Keys(t)
    ensures AsMap([e] + t) == AsMap(t)[e.key := e.value]
  {
    var r := [e] + t;
    assert r[1..] == t;
    KeyedSplit(r);
  }

  /** Deletion refines map key removal and keeps the dictionary keyed. */
  lemma {:induction false} RemoveRefines<V>(d: Dict<V>, k: string)
    requires Keyed(d)
    ensures Keyed(Remove(d, k))
    ensures AsMap(Remove(d, k)) == AsMap(d) - {k}
    decreases |d|
  {
    var r := Remove(d, k);
    if |d| == 0 {
    } else if d[0].key == k {
      KeyedSplit(d);
      assert k !in AsMap(d[1..]);
    } else {
      KeyedSplit(d);
      RemoveRefines(d[1..], k);
      assert r[1..] == Remove(d[1..], k);
      KeyedSplit(r);
    }
  }

  /** In a keyed dictionary every entry is what the map view holds for its
      key, so the listed values are exactly the map's values, one per key. */
  lemma {:induction false} EntriesAgree<V>(d: Dict<V>)
    requires Keyed(d)
    ensures forall i :: 0 <= i < |d| ==> AsMap(d)[d[i].key] == d[i].value
    ensures |AsMap(d)| == |d|
    decreases |d|
  {
    if |d| > 0 {
      KeyedSplit(d);
      EntriesAgree(d[1..]);
      forall i | 0 <= i < |d|
        ensures AsMap(d)[d[i].key] == d[i].value
      {
        if i > 0 {
          assert d[i] == d[1..][i - 1];
          assert d[i].key in Keys(d[1..]);
        }
      }
    }
  }

  /** Removing the entry that was appended last gives back what came before. */
  lemma {:induction false} RemoveAppended<V>(d: Dict<V>, e: Entry<V>)
    requires e.key !in Keys(d)
    ensures Remove(d + [e], e.key) == d
    decreases |d|
  {
    if |d| == 0 {
      assert d + [e] == [e];
    } else {
      KeysSplit(d);
      assert (d + [e])[1..] == d[1..] + [e];
      RemoveAppended(d[1..], e);
      assert d == [d[0]] + d[1..];
    }
  }

  /** Assigning the same value to a key twice is the same as assigning it once. */
  lemma {:induction false} PutTwice<V>(d: Dict<V>, k: string, v: V)
    ensures Put(Put(d, k, v), k, v) == Put(d, k, v)
    decreases |d|
  {
    if |d| > 0 && d[0].key != k {
      PutTwice(d[1..], k, v);
      var t := Put(d[1..], k, v);
      assert Put(d, k, v) == [d[0]] + t;
      assert ([d[0]] + t)[1..] == t;
    } else if |d| > 0 {
      assert (Put(d, k, v))[1..] == d[1..];
    }
  }
}

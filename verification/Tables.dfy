/** Fixed-size slot tables read as maps: the file table and the recipient keyring. */
module Tables {

  import opened Results

  /** A slot is free or holds a key and a value. */
  type Table<K, V> = seq<Option<(K, V)>>

  /** No key is held by two slots. */
  ghost predicate Distinct<K, V>(t: Table<K, V>) {
    forall i, j | 0 <= i < j < |t| && t[i].Some? && t[j].Some? :: t[i].value.0 != t[j].value.0
  }

  ghost function AsMap<K, V>(t: Table<K, V>): map<K, V> {
    if t == [] then map[]
    else
      var m := AsMap(t[..|t| - 1]);
      match t[|t| - 1]
      case None => m
      case Some((k, v)) => m[k := v]
  }

  lemma {:induction false} FindRow<K, V>(t: Table<K, V>, k: K) returns (i: nat)
    requires k in AsMap(t)
    ensures i < |t| && t[i] == Some((k, AsMap(t)[k]))
  {
    var n := |t| - 1;
    if t[n].Some? && t[n].value.0 == k {
      i := n;
    } else {
      i := FindRow(t[..n], k);
    }
  }

  lemma {:induction false} RowInMap<K, V>(t: Table<K, V>, i: nat)
    requires Distinct(t) && i < |t| && t[i].Some?
    ensures t[i].value.0 in AsMap(t) && AsMap(t)[t[i].value.0] == t[i].value.1
  {
    var n := |t| - 1;
    if i < n {
      RowInMap(t[..n], i);
    }
  }

  lemma NotInMap<K, V>(t: Table<K, V>, k: K)
    requires forall i | 0 <= i < |t| :: t[i].Some? ==> t[i].value.0 != k
    ensures k !in AsMap(t)
  {
    if k in AsMap(t) {
      var i := FindRow(t, k);
    }
  }

  /** Clearing a slot removes its key. */
  lemma ClearRow<K, V>(t: Table<K, V>, i: nat)
    requires Distinct(t) && i < |t| && t[i].Some?
    ensures Distinct(t[i := None]) && AsMap(t[i := None]) == AsMap(t) - {t[i].value.0}
  {
    var t' := t[i := None];
    var m, m' := AsMap(t) - {t[i].value.0}, AsMap(t');
    forall k | k in m'
      ensures k in m && m'[k] == m[k]
    {
      var j := FindRow(t', k);
      RowInMap(t, j);
    }
    forall k | k in m
      ensures k in m'
    {
      var j := FindRow(t, k);
      RowInMap(t', j);
    }
    assert m'.Keys == m.Keys;
    assert m' == m;
  }

  /** Filling a free slot with a new key. */
  lemma FillRow<K, V>(t: Table<K, V>, i: nat, k: K, v: V)
    requires Distinct(t) && i < |t| && t[i].None? && k !in AsMap(t)
    ensures Distinct(t[i := Some((k, v))]) && AsMap(t[i := Some((k, v))]) == AsMap(t)[k := v]
  {
    var t' := t[i := Some((k, v))];
    forall j | 0 <= j < |t| && t[j].Some?
      ensures t[j].value.0 != k
    {
      RowInMap(t, j);
    }
    assert Distinct(t');
    var m, m' := AsMap(t)[k := v], AsMap(t');
    RowInMap(t', i);
    forall x | x in m'
      ensures x in m && m'[x] == m[x]
    {
      var j := FindRow(t', x);
      if j != i {
        RowInMap(t, j);
      }
    }
    forall x | x in m
      ensures x in m'
    {
      if x != k {
        var j := FindRow(t, x);
        RowInMap(t', j);
      }
    }
    assert m'.Keys == m.Keys;
    assert m' == m;
  }

  /** A table is full exactly when its map has as many keys as it has slots. */
  lemma {:induction false} FullTable<K, V>(t: Table<K, V>)
    requires Distinct(t)
    ensures |AsMap(t)| <= |t|
    ensures |AsMap(t)| == |t| <==> forall i | 0 <= i < |t| :: t[i].Some?
  {
    if t != [] {
      var n := |t| - 1;
      FullTable(t[..n]);
      if t[n].Some? {
        var k := t[n].value.0;
        if k in AsMap(t[..n]) {
          var j := FindRow(t[..n], k);
        }
        assert AsMap(t).Keys == AsMap(t[..n]).Keys + {k};
        assert forall i | 0 <= i < n :: t[..n][i] == t[i];
      }
    }
  }
}

/** Queries over the abstract stores: the first matching row of a table, the
    values a list of keys selects in a key-value store, and the order in which
    an embedded key-value store iterates its keys. */
module Search {
  import opened Outcomes

  /** Position of the first element satisfying `p`: what `First()` selects
      from a table whose rows are kept in primary-key order. */
  function FirstIndex<T>(s: seq<T>, p: T -> bool): (r: Option<nat>)
    ensures r.Some? ==> r.value < |s| && p(s[r.value])
    ensures r.Some? ==> forall j :: 0 <= j < r.value ==> !p(s[j])
    ensures r.None? ==> forall j :: 0 <= j < |s| ==> !p(s[j])
  {
    if s == [] then None
    else if p(s[0]) then Some(0)
    else
      var rest := FirstIndex(s[1..], p);
      if rest.None? then None else Some(rest.value + 1)
  }

  /** The values stored under `keys`, one per key and in the order of `keys`. */
  function Gather<K, V>(keys: seq<K>, m: map<K, V>): (r: seq<V>)
    requires forall i :: 0 <= i < |keys| ==> keys[i] in m
    ensures |r| == |keys|
    ensures forall i :: 0 <= i < |keys| ==> r[i] == m[keys[i]]
  {
    if keys == [] then []
    else Gather(keys[..|keys| - 1], m) + [m[keys[|keys| - 1]]]
  }

  lemma GatherStep<K, V>(keys: seq<K>, m: map<K, V>, i: nat)
    requires i < |keys| && forall j :: 0 <= j <= i ==> keys[j] in m
    ensures Gather(keys[..i + 1], m) == Gather(keys[..i], m) + [m[keys[i]]]
  {
    assert keys[..i + 1][..i] == keys[..i];
  }

  /** Every gathered value is a stored value. */
  lemma GatherStored<K, V>(keys: seq<K>, m: map<K, V>)
    requires forall i :: 0 <= i < |keys| ==> keys[i] in m
    ensures forall v :: v in Gather(keys, m) ==> v in m.Values
  {
    forall v | v in Gather(keys, m) ensures v in m.Values {
      var i :| 0 <= i < |keys| && Gather(keys, m)[i] == v;
      assert m[keys[i]] == v;
    }
  }

  /** `keys` lists every element of `domain` exactly once. */
  predicate Enumerates<K>(keys: seq<K>, domain: set<K>)
  {
    && (forall i, j :: 0 <= i < j < |keys| ==> keys[i] != keys[j])
    && (set k | k in keys) == domain
  }

  lemma {:induction false} DistinctCount<K>(keys: seq<K>)
    requires forall i, j :: 0 <= i < j < |keys| ==> keys[i] != keys[j]
    ensures |set k | k in keys| == |keys|
  {
    if keys != [] {
      var init := keys[..|keys| - 1];
      var last := keys[|keys| - 1];
      DistinctCount(init);
      assert (set k | k in keys) == (set k | k in init) + {last};
      assert last !in (set k | k in init);
    }
  }

  /** Gathering along an enumeration of a map's keys yields each stored value,
      and as many values as the map has entries. */
  lemma GatherEnumeration<K, V>(keys: seq<K>, m: map<K, V>)
    requires Enumerates(keys, m.Keys)
    ensures |Gather(keys, m)| == |m|
    ensures forall v :: v in Gather(keys, m) <==> v in m.Values
    ensures keys == [] <==> m == map[]
  {
    DistinctCount(keys);
    assert (set k | k in keys) == m.Keys;
    var g := Gather(keys, m);
    forall v | v in m.Values ensures v in g {
      var k :| k in m && m[k] == v;
      var i :| 0 <= i < |keys| && keys[i] == k;
      assert g[i] == v;
    }
    if keys == [] {
      assert m.Keys == {};
    }
  }

  /** Byte-wise lexicographic order on keys; for the ASCII keys used here it
      is the order of the key bytes. */
  predicate ByteLess(a: string, b: string)
  {
    if a == [] then b != []
    else if b == [] then false
    else if a[0] != b[0] then a[0] < b[0]
    else ByteLess(a[1..], b[1..])
  }

  /** The order in which the embedded store's iterator visits keys. */
  predicate Ascending(keys: seq<string>)
  {
    forall i, j {:trigger ByteLess(keys[i], keys[j])} :: 0 <= i < j < |keys| ==> ByteLess(keys[i], keys[j])
  }

  lemma {:induction false} ByteLessIrreflexive(a: string)
    ensures !ByteLess(a, a)
  {
    if a != [] {
      ByteLessIrreflexive(a[1..]);
    }
  }

  lemma {:induction false} ByteLessAsymmetric(a: string, b: string)
    requires ByteLess(a, b)
    ensures !ByteLess(b, a)
  {
    if a != [] && b != [] && a[0] == b[0] {
      ByteLessAsymmetric(a[1..], b[1..]);
    }
  }

  /** An ascending enumeration of a key set is unique: the iterator's visiting
      order is fixed by the set of stored keys alone. */
  lemma {:induction false} AscendingUnique(a: seq<string>, b: seq<string>, keys: set<string>)
    requires Enumerates(a, keys) && Ascending(a)
    requires Enumerates(b, keys) && Ascending(b)
    ensures a == b
    decreases |a|
  {
    DistinctCount(a);
    DistinctCount(b);
    if a != [] {
      assert a[0] in keys && b[0] in keys;
      if a[0] != b[0] {
        var i :| 0 <= i < |a| && a[i] == b[0];
        var j :| 0 <= j < |b| && b[j] == a[0];
        assert ByteLess(a[0], a[i]);
        ByteLessAsymmetric(a[0], b[0]);
        assert false;
      }
      var rest := keys - {a[0]};
      assert (set k | k in a[1..]) == rest by {
        assert a == [a[0]] + a[1..];
        forall i | 0 <= i < |a[1..]| ensures a[1..][i] != a[0] {
          assert a[1..][i] == a[i + 1];
        }
      }
      assert (set k | k in b[1..]) == rest by {
        assert b == [b[0]] + b[1..];
        forall i | 0 <= i < |b[1..]| ensures b[1..][i] != b[0] {
          assert b[1..][i] == b[i + 1];
        }
      }
      forall i, j | 0 <= i < j < |a[1..]| ensures ByteLess(a[1..][i], a[1..][j]) {
        assert ByteLess(a[i + 1], a[j + 1]);
      }
      forall i, j | 0 <= i < j < |b[1..]| ensures ByteLess(b[1..][i], b[1..][j]) {
        assert ByteLess(b[i + 1], b[j + 1]);
      }
      AscendingUnique(a[1..], b[1..], rest);
      assert a == [a[0]] + a[1..] && b == [b[0]] + b[1..];
    }
  }
}

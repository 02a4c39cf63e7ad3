/** Insertion-ordered dictionaries: the dictionaries the script builds keep
    their keys in the order they were first inserted, and the report's row
    and sheet order depend on it. */
module Dicts {

  /** No element of `s` occurs twice. */
  predicate Distinct<K(==)>(s: seq<K>) {
    forall i, j | 0 <= i < j < |s| :: s[i] != s[j]
  }

  /** A dictionary that remembers insertion order: `keys` lists every key
      once, oldest first, and `entries` gives each key its value. */
  datatype Dict<K(==), V> = Dict(keys: seq<K>, entries: map<K, V>) {
    /** Every key is listed exactly once, and exactly the listed keys have values. */
    predicate Valid() {
      && Distinct(keys)
      && (forall k | k in entries :: k in keys)
      && (forall i | 0 <= i < |keys| :: keys[i] in entries)
    }
  }

  /** `{}` */
  function Empty<K(==), V>(): (d: Dict<K, V>)
    ensures d.Valid() && d.keys == [] && d.entries == map[]
  {
    Dict([], map[])
  }

  /** `d[k] = v`: the value of `k` becomes `v`; a key already present keeps its
      place in the order, a new key goes last; no other key changes. */
  function Put<K(==), V>(d: Dict<K, V>, k: K, v: V): (r: Dict<K, V>)
    ensures d.Valid() ==> r.Valid()
    ensures r.entries.Keys == d.entries.Keys + {k} && r.entries[k] == v
    ensures forall j | j in d.entries && j != k :: r.entries[j] == d.entries[j]
    ensures k in d.entries ==> r.keys == d.keys
    ensures k !in d.entries ==> r.keys == d.keys + [k]
  {
    if k in d.entries then Dict(d.keys, d.entries[k := v])
    else Dict(d.keys + [k], d.entries[k := v])
  }

  /** `{k: v for k, v in pairs}`: the pairs put in order, one after the other. */
  function FromPairs<K(==), V>(pairs: seq<(K, V)>): (d: Dict<K, V>)
    ensures d.Valid()
    decreases |pairs|
  {
    if pairs == [] then Empty()
    else Put(FromPairs(pairs[..|pairs| - 1]), pairs[|pairs| - 1].0, pairs[|pairs| - 1].1)
  }

  /** The keys of `{k: v for k, v in pairs}` are the first components, and
      every value is the second component of some pair with that key. */
  lemma {:induction false} FromPairsKeys<K, V>(pairs: seq<(K, V)>)
    ensures forall i | 0 <= i < |pairs| :: pairs[i].0 in FromPairs(pairs).entries
    ensures forall k | k in FromPairs(pairs).entries ::
      exists i | 0 <= i < |pairs| :: pairs[i] == (k, FromPairs(pairs).entries[k])
    decreases |pairs|
  {
    if pairs != [] {
      var n := |pairs|;
      var init := pairs[..n - 1];
      var last := pairs[n - 1];
      FromPairsKeys(init);
      var d0 := FromPairs(init);
      var d := FromPairs(pairs);
      assert d == Put(d0, last.0, last.1);
      forall i | 0 <= i < n ensures pairs[i].0 in d.entries {
        if i < n - 1 {
          assert init[i] == pairs[i];
        }
      }
      forall k | k in d.entries ensures exists i | 0 <= i < n :: pairs[i] == (k, d.entries[k]) {
        if k == last.0 {
          assert pairs[n - 1] == (k, d.entries[k]);
        } else {
          var i :| 0 <= i < n - 1 && init[i] == (k, d0.entries[k]);
          assert pairs[i] == init[i];
        }
      }
    }
  }

  /** A repeated key takes the value of its LAST pair (overwrite, not sum). */
  lemma {:induction false} FromPairsLastWins<K, V>(pairs: seq<(K, V)>, i: nat)
    requires i < |pairs|
    requires forall j | i < j < |pairs| :: pairs[j].0 != pairs[i].0
    ensures pairs[i].0 in FromPairs(pairs).entries
    ensures FromPairs(pairs).entries[pairs[i].0] == pairs[i].1
    decreases |pairs|
  {
    if i < |pairs| - 1 {
      var init := pairs[..|pairs| - 1];
      FromPairsLastWins(init, i);
    }
  }

  /** `list(d.items())`: the (key, value) pairs in insertion order. */
  function Items<K(==), V>(d: Dict<K, V>): (items: seq<(K, V)>)
    requires d.Valid()
  {
    seq(|d.keys|, i requires 0 <= i < |d.keys| => (d.keys[i], d.entries[d.keys[i]]))
  }

  /** A non-empty dictionary without its newest key. */
  function DropLast<K(==), V>(d: Dict<K, V>): Dict<K, V>
    requires |d.keys| > 0
  {
    Dict(d.keys[..|d.keys| - 1], d.entries - {d.keys[|d.keys| - 1]})
  }

  /** Putting the newest key back into the rest gives the dictionary again. */
  lemma DropLastPut<K, V>(d: Dict<K, V>)
    requires d.Valid() && |d.keys| > 0
    ensures DropLast(d).Valid()
    ensures Put(DropLast(d), d.keys[|d.keys| - 1], d.entries[d.keys[|d.keys| - 1]]) == d
  {
    var n := |d.keys|;
    var k := d.keys[n - 1];
    var rest := DropLast(d);
    forall m | 0 <= m < n - 1 ensures rest.keys[m] in rest.entries {
      assert d.keys[m] != k;
    }
    assert d.keys == rest.keys + [k];
    assert d.entries == rest.entries[k := d.entries[k]];
  }

  /** The items of a dictionary without its newest key are the items but the last. */
  lemma DropLastItems<K, V>(d: Dict<K, V>)
    requires d.Valid() && |d.keys| > 0
    ensures DropLast(d).Valid() && Items(d)[..|d.keys| - 1] == Items(DropLast(d))
  {
    var n := |d.keys|;
    var k := d.keys[n - 1];
    DropLastPut(d);
    forall m | 0 <= m < n - 1 ensures Items(d)[m] == Items(DropLast(d))[m] {
      assert d.keys[m] != k;
    }
  }

  /** Turning a dictionary's items back into a dictionary gives the same
      dictionary, order included. */
  lemma {:induction false} ItemsRoundTrip<K, V>(d: Dict<K, V>)
    requires d.Valid()
    ensures FromPairs(Items(d)) == d
    decreases |d.keys|
  {
    var n := |d.keys|;
    if n == 0 {
      assert d.entries.Keys == {};
    } else {
      var items := Items(d);
      var rest := DropLast(d);
      DropLastPut(d);
      DropLastItems(d);
      ItemsRoundTrip(rest);
      assert FromPairs(items) == Put(FromPairs(items[..n - 1]), items[n - 1].0, items[n - 1].1);
    }
  }

  /** In a sequence without repetitions, an element is not among the ones before it. */
  lemma DistinctPrefix<K>(s: seq<K>, i: nat)
    requires Distinct(s) && i < |s|
    ensures s[i] !in s[..i] && s[..i + 1] == s[..i] + [s[i]]
  {
    forall m | 0 <= m < i ensures s[m] != s[i] {
    }
  }
}

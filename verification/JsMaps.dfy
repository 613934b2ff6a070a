/**
 * Insertion-ordered maps, as section 24.1 of ECMA-262 has them: `Set` on a key that is present keeps
 * its place, `Delete` followed by `Set` moves it to the end, and iteration follows insertion order.
 */
module JsMaps {

  /** The keys of a sequence that are in `s`, in order. */
  function Select<K(==,!new)>(keys: seq<K>, s: set<K>): seq<K> {
    if keys == [] then []
    else (if keys[0] in s then [keys[0]] else []) + Select(keys[1..], s)
  }

  /** Some relation holds between every key and every later one. */
  ghost predicate Pairwise<K(!new)>(keys: seq<K>, rel: (K, K) -> bool) {
    forall i, j | 0 <= i < j < |keys| :: rel(keys[i], keys[j])
  }

  ghost predicate Distinct<K(!new)>(keys: seq<K>) {
    forall i, j | 0 <= i < j < |keys| :: keys[i] != keys[j]
  }

  lemma {:induction false} SelectMembers<K(!new)>(keys: seq<K>, s: set<K>)
    ensures forall k :: k in Select(keys, s) <==> k in keys && k in s
  {
    if keys != [] {
      SelectMembers(keys[1..], s);
      assert keys == [keys[0]] + keys[1..];
    }
  }

  /** Selecting keeps the order, so what held between earlier and later keys still does. */
  lemma {:induction false} SelectPairwise<K(!new)>(keys: seq<K>, s: set<K>, rel: (K, K) -> bool)
    requires Pairwise(keys, rel)
    ensures Pairwise(Select(keys, s), rel)
  {
    if keys != [] {
      var rest := Select(keys[1..], s);
      SelectPairwise(keys[1..], s, rel);
      SelectMembers(keys[1..], s);
      forall j | 0 <= j < |rest| ensures rel(keys[0], rest[j]) {
        assert rest[j] in rest;
        var m :| 0 <= m < |keys[1..]| && keys[1..][m] == rest[j];
        assert rel(keys[0], keys[m + 1]);
      }
    }
  }

  lemma SelectDistinct<K(!new)>(keys: seq<K>, s: set<K>)
    requires Distinct(keys)
    ensures Distinct(Select(keys, s))
  {
    var differ := (a: K, b: K) => a != b;
    assert Pairwise(keys, differ);
    SelectPairwise(keys, s, differ);
    forall i, j | 0 <= i < j < |Select(keys, s)| ensures Select(keys, s)[i] != Select(keys, s)[j] {
      assert differ(Select(keys, s)[i], Select(keys, s)[j]);
    }
  }

  /** A duplicate-free sequence has as many elements as its set of elements. */
  lemma {:induction false} DistinctSize<K(!new)>(keys: seq<K>)
    requires Distinct(keys)
    ensures |set k | k in keys| == |keys|
  {
    if keys != [] {
      DistinctSize(keys[1..]);
      assert (set k | k in keys) == {keys[0]} + set k | k in keys[1..];
    }
  }

  datatype JsMap<!K(==,!new), V> = JsMap(keys: seq<K>, dict: map<K, V>)
  {
    ghost predicate Valid() {
      && Distinct(keys)
      && (forall i | 0 <= i < |keys| :: keys[i] in dict)
      && (forall k | k in dict :: k in keys)
    }

    function Size(): nat { |keys| }

    predicate Has(k: K) { k in dict }

    function Set(k: K, v: V): JsMap<K, V> {
      JsMap(if k in dict then keys else keys + [k], dict[k := v])
    }

    function Keep(s: set<K>): JsMap<K, V> {
      JsMap(Select(keys, s), map k | k in dict && k in s :: dict[k])
    }

    function Delete(k: K): JsMap<K, V> { Keep(dict.Keys - {k}) }

    lemma SetValid(k: K, v: V)
      requires Valid()
      ensures Set(k, v).Valid()
    {
    }

    lemma KeepValid(s: set<K>)
      requires Valid()
      ensures Keep(s).Valid()
    {
      SelectDistinct(keys, s);
      SelectMembers(keys, s);
      var kept := Select(keys, s);
      assert forall i | 0 <= i < |kept| :: kept[i] in kept;
    }

    /** A valid map has as many entries as keys. */
    lemma SizeIsCount()
      requires Valid()
      ensures Size() == |dict| == |dict.Keys|
    {
      DistinctSize(keys);
      assert (set k | k in keys) == dict.Keys;
    }

    /** Deleting one more key keeps one key fewer. */
    lemma KeepDelete(s: set<K>, k: K)
      requires Valid()
      ensures Keep(s).Delete(k) == Keep(s - {k})
    {
      var t := Keep(s).dict.Keys - {k};
      SelectSelect(keys, s, t);
      SelectAgree(keys, s * t, s - {k});
      assert Keep(s).Delete(k).dict == Keep(s - {k}).dict;
    }

    /** Only the keys present matter to `Keep`. */
    lemma KeepAgree(s: set<K>, t: set<K>)
      requires Valid() && forall k | k in dict :: k in s <==> k in t
      ensures Keep(s) == Keep(t)
    {
      SelectAgree(keys, s, t);
      assert Keep(s).dict == Keep(t).dict;
    }

    lemma KeepAll()
      requires Valid()
      ensures Keep(dict.Keys) == this
    {
      SelectAll(keys, dict.Keys);
      assert Keep(dict.Keys).dict == dict;
    }

    /** The keys left when a sweep that deletes what is over has looked at the first n. */
    ghost function Unswept(over: V -> bool, n: nat): set<K>
      requires n <= |keys|
    {
      set k | k in dict && !(k in keys[..n] && over(dict[k]))
    }

    lemma UnsweptAll(over: V -> bool)
      requires Valid()
      ensures Keep(Unswept(over, 0)) == this
    {
      KeepAll();
      KeepAgree(dict.Keys, Unswept(over, 0));
    }

    lemma SweepOne(over: V -> bool, i: nat)
      requires Valid() && i < |keys|
      ensures var k, cur := keys[i], Keep(Unswept(over, i));
              && k in cur.dict && cur.dict[k] == dict[k]
              && Keep(Unswept(over, i + 1)) == if over(dict[k]) then cur.Delete(k) else cur
    {
      var k := keys[i];
      if over(dict[k]) {
        KeepDelete(Unswept(over, i), k);
        KeepAgree(Unswept(over, i) - {k}, Unswept(over, i + 1));
      } else {
        KeepAgree(Unswept(over, i), Unswept(over, i + 1));
      }
    }
  }

  lemma {:induction false} SelectAgree<K(!new)>(keys: seq<K>, s: set<K>, t: set<K>)
    requires forall i | 0 <= i < |keys| :: keys[i] in s <==> keys[i] in t
    ensures Select(keys, s) == Select(keys, t)
  {
    if keys != [] {
      SelectAgree(keys[1..], s, t);
    }
  }

  lemma {:induction false} SelectSelect<K(!new)>(keys: seq<K>, s: set<K>, t: set<K>)
    ensures Select(Select(keys, s), t) == Select(keys, s * t)
  {
    if keys != [] {
      SelectSelect(keys[1..], s, t);
      var rest := Select(keys[1..], s);
      if keys[0] in s {
        assert ([keys[0]] + rest)[1..] == rest;
      } else {
        assert [] + rest == rest;
      }
    }
  }

  lemma {:induction false} SelectAll<K(!new)>(keys: seq<K>, s: set<K>)
    requires forall i | 0 <= i < |keys| :: keys[i] in s
    ensures Select(keys, s) == keys
  {
    if keys != [] {
      SelectAll(keys[1..], s);
      assert keys == [keys[0]] + keys[1..];
    }
  }

  lemma {:induction false} SelectNoLonger<K(!new)>(keys: seq<K>, s: set<K>)
    ensures |Select(keys, s)| <= |keys|
  {
    if keys != [] {
      SelectNoLonger(keys[1..], s);
    }
  }

  function EmptyMap<K(==,!new), V>(): JsMap<K, V> { JsMap([], map[]) }
}

/** The JavaScript `Map`: string keys, insertion order kept by enumeration.
    `set` on a present key replaces the value in place; `delete` removes the
    entry, so a key set again afterwards moves to the end. */
module JsMaps {
  import opened Wrappers

  datatype Entry<V> = Entry(key: string, value: V)

  predicate UniqueKeys<V>(es: seq<Entry<V>>) {
    forall i, j :: 0 <= i < j < |es| ==> es[i].key != es[j].key
  }

  predicate HasKey<V>(es: seq<Entry<V>>, k: string) {
    exists i :: 0 <= i < |es| && es[i].key == k
  }

  /** `map.get(k)`. */
  function Find<V>(es: seq<Entry<V>>, k: string): (r: Option<V>)
    ensures r.None? <==> !HasKey(es, k)
    ensures r.Some? ==> exists i :: 0 <= i < |es| && es[i] == Entry(k, r.value)
  {
    if es == [] then None
    else if es[0].key == k then Some(es[0].value)
    else
      var r := Find(es[1..], k);
      assert forall i :: 0 < i < |es| ==> es[i] == es[1..][i - 1];
      r
  }

  /** `map.set(k, v)`. */
  function Put<V>(es: seq<Entry<V>>, k: string, v: V): seq<Entry<V>>
  {
    if es == [] then [Entry(k, v)]
    else if es[0].key == k then [Entry(k, v)] + es[1..]
    else [es[0]] + Put(es[1..], k, v)
  }

  /** `map.delete(k)`. */
  function Without<V>(es: seq<Entry<V>>, k: string): seq<Entry<V>>
  {
    if es == [] then []
    else if es[0].key == k then Without(es[1..], k)
    else [es[0]] + Without(es[1..], k)
  }

  /** `Array.from(map.values())`. */
  function Values<V>(es: seq<Entry<V>>): (vs: seq<V>)
    ensures |vs| == |es| && forall i :: 0 <= i < |es| ==> vs[i] == es[i].value
  {
    if es == [] then [] else [es[0].value] + Values(es[1..])
  }

  /** The values held, as a set. */
  function ValueSet<V>(es: seq<Entry<V>>): set<V> {
    set i | 0 <= i < |es| :: es[i].value
  }

  /** Whatever `get` answers is one of the values held. */
  lemma FoundInValueSet<V>(es: seq<Entry<V>>, k: string)
    requires Find(es, k).Some?
    ensures Find(es, k).value in ValueSet(es)
  {
    var i :| 0 <= i < |es| && es[i] == Entry(k, Find(es, k).value);
  }

  lemma ValueSetAppend<V>(es: seq<Entry<V>>, e: Entry<V>)
    ensures ValueSet(es + [e]) == ValueSet(es) + {e.value}
  {
    var es' := es + [e];
    forall v | v in ValueSet(es') ensures v in ValueSet(es) + {e.value} {
      var i :| 0 <= i < |es'| && es'[i].value == v;
      if i < |es| { assert es'[i] == es[i]; }
    }
    forall v | v in ValueSet(es) ensures v in ValueSet(es') {
      var i :| 0 <= i < |es| && es[i].value == v;
      assert es'[i] == es[i];
    }
    assert es'[|es|].value == e.value;
  }

  /** `names.map((n) => map.get(n)).filter((v) => v !== undefined)`. */
  function LookupAll<V>(es: seq<Entry<V>>, names: seq<string>): seq<V>
  {
    if names == [] then []
    else match Find(es, names[0])
      case Some(v) => [v] + LookupAll(es, names[1..])
      case None => LookupAll(es, names[1..])
  }

  /** After `set`, `get` answers the new value for that key and the old answer
      for every other key. */
  lemma {:induction false} FindPut<V>(es: seq<Entry<V>>, k: string, v: V, q: string)
    ensures Find(Put(es, k, v), q) == if q == k then Some(v) else Find(es, q)
  {
    if es != [] && es[0].key != k {
      FindPut(es[1..], k, v, q);
    }
  }

  /** `set` on an absent key appends the entry at the end of the order. */
  lemma {:induction false} PutAbsent<V>(es: seq<Entry<V>>, k: string, v: V)
    requires !HasKey(es, k)
    ensures Put(es, k, v) == es + [Entry(k, v)]
  {
    if es != [] {
      assert !HasKey(es[1..], k) by {
        forall i | 0 <= i < |es[1..]| ensures es[1..][i].key != k { assert es[1..][i] == es[i + 1]; }
      }
      PutAbsent(es[1..], k, v);
      assert [es[0]] + (es[1..] + [Entry(k, v)]) == es + [Entry(k, v)];
    }
  }

  /** `set` on a present key replaces its value where it stands: the keys,
      their order and every other entry are kept. */
  lemma {:induction false} PutPresent<V>(es: seq<Entry<V>>, k: string, v: V)
    requires HasKey(es, k)
    ensures |Put(es, k, v)| == |es|
    ensures forall i :: 0 <= i < |es| ==> Put(es, k, v)[i].key == es[i].key
    ensures forall i :: 0 <= i < |es| && es[i].key != k ==> Put(es, k, v)[i] == es[i]
  {
    if es[0].key != k {
      assert HasKey(es[1..], k) by {
        var j :| 0 <= j < |es| && es[j].key == k;
        assert es[1..][j - 1] == es[j];
      }
      PutPresent(es[1..], k, v);
    }
  }

  lemma {:induction false} KeysOfPut<V>(es: seq<Entry<V>>, k: string, v: V, q: string)
    ensures HasKey(Put(es, k, v), q) <==> q == k || HasKey(es, q)
  {
    FindPut(es, k, v, q);
  }

  lemma {:induction false} PutUnique<V>(es: seq<Entry<V>>, k: string, v: V)
    requires UniqueKeys(es)
    ensures UniqueKeys(Put(es, k, v))
  {
    if es != [] && es[0].key != k {
      var tail := es[1..];
      assert UniqueKeys(tail) by {
        forall i, j | 0 <= i < j < |tail| ensures tail[i].key != tail[j].key { assert tail[i] == es[i + 1] && tail[j] == es[j + 1]; }
      }
      PutUnique(tail, k, v);
      var p := Put(tail, k, v);
      forall i | 0 <= i < |p| ensures p[i].key != es[0].key {
        assert HasKey(p, p[i].key);
        KeysOfPut(tail, k, v, p[i].key);
        if p[i].key != k {
          var j :| 0 <= j < |tail| && tail[j].key == p[i].key;
          assert es[j + 1] == tail[j];
        }
      }
      assert Put(es, k, v) == [es[0]] + p;
    }
  }

  /** After `delete`, `get` answers `undefined` for that key and the old answer
      for every other key. */
  lemma {:induction false} FindWithout<V>(es: seq<Entry<V>>, k: string, q: string)
    ensures Find(Without(es, k), q) == if q == k then None else Find(es, q)
  {
    if es != [] {
      FindWithout(es[1..], k, q);
    }
  }

  /** `delete` keeps the remaining entries in their order. */
  lemma {:induction false} WithoutIsSubsequence<V>(es: seq<Entry<V>>, k: string)
    ensures forall e :: e in Without(es, k) ==> e in es && e.key != k
    ensures forall e :: e in es && e.key != k ==> e in Without(es, k)
  {
    if es != [] {
      WithoutIsSubsequence(es[1..], k);
      assert es == [es[0]] + es[1..];
    }
  }

  lemma {:induction false} WithoutAbsent<V>(es: seq<Entry<V>>, k: string)
    requires !HasKey(es, k)
    ensures Without(es, k) == es
  {
    if es != [] {
      assert !HasKey(es[1..], k) by {
        forall i | 0 <= i < |es[1..]| ensures es[1..][i].key != k { assert es[1..][i] == es[i + 1]; }
      }
      WithoutAbsent(es[1..], k);
      assert [es[0]] + es[1..] == es;
    }
  }

  lemma {:induction false} WithoutUnique<V>(es: seq<Entry<V>>, k: string)
    requires UniqueKeys(es)
    ensures UniqueKeys(Without(es, k))
  {
    if es != [] {
      var tail := es[1..];
      assert UniqueKeys(tail) by {
        forall i, j | 0 <= i < j < |tail| ensures tail[i].key != tail[j].key { assert tail[i] == es[i + 1] && tail[j] == es[j + 1]; }
      }
      WithoutUnique(tail, k);
      WithoutIsSubsequence(tail, k);
      var w := Without(tail, k);
      if es[0].key != k {
        forall i | 0 <= i < |w| ensures w[i].key != es[0].key {
          var e := w[i];
          assert e in Without(tail, k);
          assert e in tail;
          var j :| 0 <= j < |tail| && tail[j] == e;
          assert es[j + 1] == tail[j];
        }
      }
    }
  }

  /** The registered values for the names, in the names' order: one for each
      name that has an entry, none for the others. */
  lemma {:induction false} LookupAllMembers<V>(es: seq<Entry<V>>, names: seq<string>, v: V)
    ensures v in LookupAll(es, names) <==> exists i :: 0 <= i < |names| && Find(es, names[i]) == Some(v)
  {
    if names != [] {
      LookupAllMembers(es, names[1..], v);
      if exists i :: 0 <= i < |names| && Find(es, names[i]) == Some(v) {
        var i :| 0 <= i < |names| && Find(es, names[i]) == Some(v);
        if i > 0 { assert names[1..][i - 1] == names[i]; }
      }
      if exists i :: 0 <= i < |names[1..]| && Find(es, names[1..][i]) == Some(v) {
        var i :| 0 <= i < |names[1..]| && Find(es, names[1..][i]) == Some(v);
        assert names[i + 1] == names[1..][i];
      }
    }
  }

  /** A stored `Map` object, shared by every handle that refers to it. */
  class JsMap<V> {
    var entries: seq<Entry<V>>

    ghost predicate Valid()
      reads this
    {
      UniqueKeys(entries)
    }

    constructor()
      ensures Valid() && entries == []
    {
      entries := [];
    }

    function Has(k: string): (b: bool)
      reads this
      ensures b <==> HasKey(entries, k)
    {
      Find(entries, k).Some?
    }

    function Get(k: string): Option<V>
      reads this
    {
      Find(entries, k)
    }

    method Set(k: string, v: V)
      requires Valid()
      modifies this
      ensures Valid()
      ensures entries == Put(old(entries), k, v)
    {
      PutUnique(entries, k, v);
      entries := Put(entries, k, v);
    }

    method Delete(k: string) returns (existed: bool)
      requires Valid()
      modifies this
      ensures Valid()
      ensures existed == HasKey(old(entries), k)
      ensures entries == Without(old(entries), k)
    {
      existed := Has(k);
      WithoutUnique(entries, k);
      entries := Without(entries, k);
    }
  }
}

/**
Ordered dictionaries with text for keys, as Python keeps them.
*/
module Dictionaries {
  import opened Options

  function Get<V>(dict: seq<(string, V)>, key: string): Option<V> {
    if dict == [] then None
    else if dict[0].0 == key then Some(dict[0].1)
    else Get(dict[1..], key)
  }

  /** Setting a key keeps its place; a new key goes last. */
  function Put<V>(dict: seq<(string, V)>, key: string, value: V): seq<(string, V)> {
    if dict == [] then [(key, value)]
    else if dict[0].0 == key then [(key, value)] + dict[1..]
    else [dict[0]] + Put(dict[1..], key, value)
  }

  predicate DistinctKeys<V>(dict: seq<(string, V)>) {
    dict == [] || (Get(dict[1..], dict[0].0).None? && DistinctKeys(dict[1..]))
  }

  lemma {:induction false} GetOfPut<V>(dict: seq<(string, V)>, key: string, value: V, k: string)
    ensures Get(Put(dict, key, value), k) == if k == key then Some(value) else Get(dict, k)
    ensures DistinctKeys(dict) ==> DistinctKeys(Put(dict, key, value))
  {
    if dict != [] && dict[0].0 != key {
      GetOfPut(dict[1..], key, value, k);
      GetOfPut(dict[1..], key, value, dict[0].0);
    }
  }

  lemma {:induction false} GetFindsEntry<V>(dict: seq<(string, V)>, i: nat)
    requires DistinctKeys(dict) && i < |dict|
    ensures Get(dict, dict[i].0) == Some(dict[i].1)
  {
    if i > 0 {
      GetFindsEntry(dict[1..], i - 1);
    }
  }

  lemma {:induction false} EntryOf<V>(dict: seq<(string, V)>, key: string) returns (i: nat)
    requires Get(dict, key).Some?
    ensures i < |dict| && dict[i] == (key, Get(dict, key).value)
  {
    if dict[0].0 == key {
      i := 0;
    } else {
      var j := EntryOf(dict[1..], key);
      i := j + 1;
    }
  }

  lemma {:induction false} PutNewGoesLast<V>(dict: seq<(string, V)>, key: string, value: V)
    requires Get(dict, key).None?
    ensures Put(dict, key, value) == dict + [(key, value)]
  {
    if dict != [] {
      PutNewGoesLast(dict[1..], key, value);
    }
  }

  /** What holds for all entries, and for one more, holds after setting it. */
  lemma {:induction false} PutKeepsEach<V(!new)>(dict: seq<(string, V)>, key: string, value: V, p: (string, V) -> bool)
    requires p(key, value) && forall e <- dict :: p(e.0, e.1)
    ensures forall e <- Put(dict, key, value) :: p(e.0, e.1)
  {
    if dict != [] && dict[0].0 != key {
      PutKeepsEach(dict[1..], key, value, p);
    }
  }

  lemma {:induction false} DistinctPrefix<V>(a: seq<(string, V)>, entry: (string, V), b: seq<(string, V)>)
    requires DistinctKeys(a + [entry] + b)
    ensures Get(a, entry.0).None?
  {
    if a != [] {
      assert (a + [entry] + b)[1..] == a[1..] + [entry] + b;
      DistinctPrefix(a[1..], entry, b);
      assert (a[1..] + [entry] + b)[|a| - 1] == entry;
      if a[0].0 == entry.0 {
        HasItsKeys(a[1..] + [entry] + b, |a| - 1);
      }
    }
  }

  lemma {:induction false} HasItsKeys<V>(dict: seq<(string, V)>, i: nat)
    requires i < |dict|
    ensures Get(dict, dict[i].0).Some?
  {
    if i > 0 {
      HasItsKeys(dict[1..], i - 1);
    }
  }
}

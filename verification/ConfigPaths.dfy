/**
What merging two configuration files leaves under each path of keys.
*/
module ConfigPaths {
  import opened ConfigMerge
  import opened Options
  import opened Selections

  /** What a value has under a path of keys. */
  function Under(json: Json, path: seq<string>): Option<Json> {
    if path == [] then Some(json)
    else if json.Object? && path[0] in json.fields then Under(json.fields[path[0]], path[1..])
    else None
  }

  /** Both values hold objects all along the path, its end excepted. */
  predicate BothGoOn(base: Json, override: Json, path: seq<string>) {
    path != [] ==>
      && base.Object? && override.Object?
      && (path[0] in base.fields && path[0] in override.fields ==>
            BothGoOn(base.fields[path[0]], override.fields[path[0]], path[1..]))
  }

  /** The positions at which an item occurs for the first time. */
  function FirstOnes(items: seq<Json>, n: nat): set<nat>
    requires n <= |items|
  {
    set i: nat | i < n && forall j :: 0 <= j < i ==> items[j] != items[i]
  }

  /** `part` are the first occurrences of the items, in order. */
  ghost predicate AreFirstOnes(items: seq<Json>, part: seq<Json>) {
    exists at :: FirstOnesAt(items, |items|, part, at)
  }

  ghost predicate FirstOnesAt(items: seq<Json>, n: nat, part: seq<Json>, at: seq<nat>)
    requires n <= |items|
  {
    && Lists(at, FirstOnes(items, n)) && |part| == |at|
    && forall k :: 0 <= k < |at| ==> at[k] < n && part[k] == items[at[k]]
  }

  lemma {:induction false} DedupeAt(items: seq<Json>, n: nat) returns (at: seq<nat>)
    requires n <= |items|
    ensures FirstOnesAt(items, n, DedupeFrom(items[..n], {}), at)
    decreases n
  {
    at := [];
    if n > 0 {
      var i := n - 1;
      at := DedupeAt(items, i);
      assert items[..n] == items[..i] + [items[i]];
      DedupeAppend(items[..i], [items[i]], {});
      DedupeOfOne(items[i], {} + Members(items[..i]));
      var before, now := FirstOnes(items, i), FirstOnes(items, n);
      SeenBefore(items, i);
      if items[i] in Members(items[..i]) {
        assert now == before;
      } else {
        ListsOneMore(at, before, i);
        assert now == before + {i};
        at := at + [i];
      }
    }
  }

  lemma DedupeOfOne(item: Json, seen: set<Json>)
    ensures DedupeFrom([item], seen) == if item in seen then [] else [item]
  {
    assert [item][1..] == [];
    assert DedupeFrom([item][1..], seen + {item}) == [];
    assert DedupeFrom([item][1..], seen) == [];
  }

  lemma SeenBefore(items: seq<Json>, i: nat)
    requires i < |items|
    ensures items[i] in Members(items[..i]) <==> exists j :: 0 <= j < i && items[j] == items[i]
  {
    if items[i] in Members(items[..i]) {
      var j :| 0 <= j < i && items[..i][j] == items[i];
    }
    if j :| 0 <= j < i && items[j] == items[i] {
      assert items[..i][j] == items[i];
    }
  }

  /** Appending without repetition keeps the first occurrences of all items, in order. */
  lemma DedupeIsFirstOnes(items: seq<Json>)
    ensures AreFirstOnes(items, DedupeFrom(items, {}))
  {
    var at := DedupeAt(items, |items|);
    assert items[..|items|] == items;
  }

  /**
  Under a path on which both files go on, the merged file has what the one file has that has something there; where
  both have something, two lists are appended without repetition, two objects have something merged, and anything else
  is that of the override.
  */
  lemma {:induction false} MergeUnderPath(base: Json, override: Json, path: seq<string>)
    requires BothGoOn(base, override, path)
    ensures var b, o, merged := Under(base, path), Under(override, path), Under(Merge(base, override), path);
      if b.None? then merged == o
      else if o.None? then merged == b
      else
        && merged.Some?
        && if b.value.Object? && o.value.Object? then
             && merged.value.Object? && merged.value.fields.Keys == b.value.fields.Keys + o.value.fields.Keys
           else if b.value.List? && o.value.List? then
             && merged.value.List? && AreFirstOnes(b.value.items + o.value.items, merged.value.items)
           else merged == o
  {
    if path == [] {
      if base.List? && override.List? {
        DedupeIsFirstOnes(base.items + override.items);
      }
    } else if path[0] in base.fields && path[0] in override.fields {
      MergeUnderPath(base.fields[path[0]], override.fields[path[0]], path[1..]);
    }
  }
}

/**
Merging configuration files: objects key by key, lists by appending without repetition, anything else by overriding.
*/
module ConfigMerge {
  /** A JSON value; a scalar is known by its text. */
  datatype Json = Scalar(text: string) | List(items: seq<Json>) | Object(fields: map<string, Json>)

  /** The first occurrence of each item, in order, but for those in `seen`. */
  function DedupeFrom(items: seq<Json>, seen: set<Json>): seq<Json> {
    if items == [] then []
    else if items[0] in seen then DedupeFrom(items[1..], seen)
    else [items[0]] + DedupeFrom(items[1..], seen + {items[0]})
  }

  method DedupeJsonValues(items: seq<Json>) returns (deduped: seq<Json>)
    ensures deduped == DedupeFrom(items, {})
  {
    deduped := [];
    var seen: set<Json> := {};
    var i := 0;
    assert items[0..] == items;
    while i < |items|
      invariant 0 <= i <= |items| && deduped + DedupeFrom(items[i..], seen) == DedupeFrom(items, {})
    {
      assert items[i..][1..] == items[i + 1..];
      if items[i] !in seen {
        seen := seen + {items[i]};
        deduped := deduped + [items[i]];
      }
      i := i + 1;
    }
  }

  function Merge(base: Json, override: Json): Json {
    if base.Object? && override.Object? then
      Object(map k | k in base.fields.Keys + override.fields.Keys ::
        if k in base.fields && k in override.fields then Merge(base.fields[k], override.fields[k])
        else if k in override.fields then override.fields[k]
        else base.fields[k])
    else if base.List? && override.List? then List(DedupeFrom(base.items + override.items, {}))
    else override
  }

  /** The same kind of value, and so on for the keys they share. */
  predicate Agree(a: Json, b: Json) {
    match a
    case Scalar(_) => b.Scalar?
    case List(_) => b.List?
    case Object(fields) => b.Object? && forall k <- fields :: k in b.fields ==> Agree(fields[k], b.fields[k])
  }

  predicate SameKind(a: Json, b: Json) {
    a.Scalar? == b.Scalar? && a.List? == b.List?
  }

  predicate NoRepeats(items: seq<Json>) {
    forall i, j :: 0 <= i < j < |items| ==> items[i] != items[j]
  }

  /** `c` says all that `a` says: it has the keys of `a`, and so below; a list of `c` begins with the items of `a`, and
      repeats none. */
  predicate Covers(c: Json, a: Json) {
    if a.Object? && c.Object? then
      forall k <- a.fields :: k in c.fields && Covers(c.fields[k], a.fields[k])
    else a.List? && c.List? ==> DedupeFrom(a.items, {}) <= c.items && NoRepeats(c.items)
  }

  /** Under some path of keys that all three share, `b` is of another kind than `a` and `c` and so cuts off `a`, of
      which `c` does not say everything. */
  predicate Cut(a: Json, b: Json, c: Json) {
    if a.Object? && b.Object? && c.Object? then
      exists k <- a.fields :: k in b.fields && k in c.fields && Cut(a.fields[k], b.fields[k], c.fields[k])
    else SameKind(a, c) && !SameKind(a, b) && !Covers(c, a)
  }

  // Lists

  function Members(items: seq<Json>): set<Json> {
    set item <- items
  }

  lemma {:induction false} DedupeAppend(a: seq<Json>, b: seq<Json>, seen: set<Json>)
    ensures DedupeFrom(a + b, seen) == DedupeFrom(a, seen) + DedupeFrom(b, seen + Members(a))
    decreases |a|
  {
    if a == [] {
      assert a + b == b && seen + Members(a) == seen;
    } else {
      assert (a + b)[1..] == a[1..] + b;
      assert a == [a[0]] + a[1..];
      if a[0] in seen {
        DedupeAppend(a[1..], b, seen);
        assert seen + Members(a[1..]) == seen + Members(a);
      } else {
        DedupeAppend(a[1..], b, seen + {a[0]});
        assert seen + {a[0]} + Members(a[1..]) == seen + Members(a);
      }
    }
  }

  lemma {:induction false} DedupeMembers(items: seq<Json>, seen: set<Json>)
    ensures Members(DedupeFrom(items, seen)) + seen == Members(items) + seen
    decreases |items|
  {
    if items != [] {
      assert items == [items[0]] + items[1..];
      if items[0] in seen {
        DedupeMembers(items[1..], seen);
      } else {
        DedupeMembers(items[1..], seen + {items[0]});
        var rest := DedupeFrom(items[1..], seen + {items[0]});
        assert Members([items[0]] + rest) == {items[0]} + Members(rest);
        assert Members(rest) + (seen + {items[0]}) == Members(items[1..]) + (seen + {items[0]});
        assert Members(items) == {items[0]} + Members(items[1..]);
      }
    }
  }

  /** What was deduplicated against less can be deduplicated again. */
  lemma {:induction false} DedupeTwice(items: seq<Json>, less: set<Json>, seen: set<Json>)
    requires less <= seen
    ensures DedupeFrom(DedupeFrom(items, less), seen) == DedupeFrom(items, seen)
    decreases |items|
  {
    if items != [] {
      if items[0] in less {
        DedupeTwice(items[1..], less, seen);
      } else {
        var rest := DedupeFrom(items[1..], less + {items[0]});
        assert ([items[0]] + rest)[1..] == rest;
        if items[0] in seen {
          DedupeTwice(items[1..], less + {items[0]}, seen);
        } else {
          DedupeTwice(items[1..], less + {items[0]}, seen + {items[0]});
        }
      }
    }
  }

  lemma DedupeFirstPart(x: seq<Json>, c: seq<Json>)
    ensures DedupeFrom(DedupeFrom(x, {}) + c, {}) == DedupeFrom(x + c, {})
  {
    DedupeAppend(DedupeFrom(x, {}), c, {});
    DedupeAppend(x, c, {});
    DedupeTwice(x, {}, {});
    DedupeMembers(x, {});
    assert {} + Members(DedupeFrom(x, {})) == {} + Members(x);
  }

  lemma DedupeSecondPart(a: seq<Json>, y: seq<Json>)
    ensures DedupeFrom(a + DedupeFrom(y, {}), {}) == DedupeFrom(a + y, {})
  {
    DedupeAppend(a, DedupeFrom(y, {}), {});
    DedupeAppend(a, y, {});
    DedupeTwice(y, {}, {} + Members(a));
  }

  lemma AppendingIsAssociative(a: seq<Json>, b: seq<Json>, c: seq<Json>)
    ensures DedupeFrom(DedupeFrom(a + b, {}) + c, {}) == DedupeFrom(a + DedupeFrom(b + c, {}), {})
  {
    DedupeFirstPart(a + b, c);
    DedupeSecondPart(a, b + c);
    assert a + b + c == a + (b + c);
  }

  lemma {:induction false} DedupeHasNoRepeats(items: seq<Json>, seen: set<Json>)
    ensures NoRepeats(DedupeFrom(items, seen)) && forall item <- DedupeFrom(items, seen) :: item !in seen
    decreases |items|
  {
    if items != [] {
      DedupeHasNoRepeats(items[1..], if items[0] in seen then seen else seen + {items[0]});
    }
  }

  lemma {:induction false} DedupeOfSeen(items: seq<Json>, seen: set<Json>)
    requires Members(items) <= seen
    ensures DedupeFrom(items, seen) == []
  {
    if items != [] {
      assert items[0] in Members(items) && Members(items[1..]) <= Members(items);
      DedupeOfSeen(items[1..], seen);
    }
  }

  lemma {:induction false} DedupeOfDistinct(items: seq<Json>, seen: set<Json>)
    requires NoRepeats(items) && forall item <- items :: item !in seen
    ensures DedupeFrom(items, seen) == items
    decreases |items|
  {
    if items != [] {
      assert items[0] in items && forall item <- items[1..] :: item in items;
      DedupeOfDistinct(items[1..], seen + {items[0]});
    }
  }

  /** Once the items of `d` have been seen, a list without repeats that begins with them is left with its rest. */
  lemma DedupeBehindSeen(d: seq<Json>, rest: seq<Json>)
    requires NoRepeats(d + rest)
    ensures d + DedupeFrom(d + rest, Members(d)) == d + rest
  {
    DedupeAppend(d, rest, Members(d));
    DedupeOfSeen(d, Members(d));
    assert Members(d) + Members(d) == Members(d);
    forall i | 0 <= i < |rest| ensures rest[i] !in d {
      assert rest[i] == (d + rest)[|d| + i];
      assert forall j :: 0 <= j < |d| ==> (d + rest)[j] == d[j];
    }
    assert NoRepeats(rest) by {
      assert forall i :: 0 <= i < |rest| ==> rest[i] == (d + rest)[|d| + i];
    }
    DedupeOfDistinct(rest, Members(d));
    assert [] + rest == rest;
  }

  /** Appending `c` to `a` gives `c` exactly if `c` begins with the items of `a` and repeats none. */
  lemma AppendingAddsNothingIff(a: seq<Json>, c: seq<Json>)
    ensures DedupeFrom(a + c, {}) == c <==> DedupeFrom(a, {}) <= c && NoRepeats(c)
  {
    var d := DedupeFrom(a, {});
    DedupeAppend(a, c, {});
    DedupeHasNoRepeats(a + c, {});
    DedupeMembers(a, {});
    assert {} + Members(a) == Members(d);
    if d <= c && NoRepeats(c) {
      assert c == d + c[|d|..];
      DedupeBehindSeen(d, c[|d|..]);
    }
  }

  // Files

  /** Overriding `a` by `c` gives `c` exactly if `c` says all that `a` says, or is of another kind. */
  lemma {:induction false} MergeAddsNothingIff(a: Json, c: Json)
    ensures Merge(a, c) == c <==> Covers(c, a)
    decreases a, c
  {
    if a.Object? && c.Object? {
      var merged := Merge(a, c);
      forall k | k in a.fields && k in c.fields
        ensures merged.fields[k] == c.fields[k] <==> Covers(c.fields[k], a.fields[k])
      {
        MergeAddsNothingIff(a.fields[k], c.fields[k]);
      }
      assert merged.fields.Keys == a.fields.Keys + c.fields.Keys;
      assert merged == c <==> merged.fields == c.fields;
      if Covers(c, a) {
        assert merged.fields.Keys == c.fields.Keys;
      }
    } else if a.List? && c.List? {
      AppendingAddsNothingIff(a.items, c.items);
    }
  }

  /** Merging three files gives the same either way round if and only if the second cuts nothing off. */
  lemma {:induction false} MergeIsAssociative(a: Json, b: Json, c: Json)
    ensures Merge(Merge(a, b), c) == Merge(a, Merge(b, c)) <==> !Cut(a, b, c)
    decreases a, b, c
  {
    if a.Object? && b.Object? && c.Object? {
      var left, right := Merge(Merge(a, b), c), Merge(a, Merge(b, c));
      assert left.fields.Keys == right.fields.Keys;
      forall k <- left.fields
        ensures left.fields[k] == right.fields[k] <==>
                !(k in a.fields && k in b.fields && k in c.fields && Cut(a.fields[k], b.fields[k], c.fields[k]))
      {
        if k in a.fields && k in b.fields && k in c.fields {
          MergeIsAssociative(a.fields[k], b.fields[k], c.fields[k]);
        }
      }
      assert left == right <==> forall k <- left.fields :: left.fields[k] == right.fields[k];
    } else {
      MergeAddsNothingIff(a, c);
      if a.List? && b.List? && c.List? {
        AppendingIsAssociative(a.items, b.items, c.items);
      }
    }
  }

  /** So it is the same if each key has the same kind of value in all three. */
  lemma {:induction false} AgreeingFilesAreNotCut(a: Json, b: Json, c: Json)
    requires Agree(a, b) && Agree(b, c)
    ensures !Cut(a, b, c)
    decreases a, b, c
  {
    if a.Object? {
      forall k | k in a.fields && k in b.fields && k in c.fields ensures !Cut(a.fields[k], b.fields[k], c.fields[k]) {
        AgreeingFilesAreNotCut(a.fields[k], b.fields[k], c.fields[k]);
      }
    }
  }

  /** Between two lists, a scalar cuts off the first. */
  lemma MixedKindsAreNotAssociative()
    ensures var one, two, three := List([Scalar("1")]), Scalar("2"), List([Scalar("3")]);
      Cut(one, two, three) && Merge(Merge(one, two), three) != Merge(one, Merge(two, three))
  {
    var one, three := [Scalar("1")], [Scalar("3")];
    DedupeAppend(one, three, {});
    assert DedupeFrom(one, {}) == [Scalar("1")] + DedupeFrom([], {Scalar("1")});
    assert |DedupeFrom(one + three, {})| >= 1 && DedupeFrom(one + three, {})[0] == Scalar("1");
  }
}

/**
Parts of a sequence, told by the positions that stay.
*/
module Selections {
  /** `at` names the positions `keep`, from the first to the last. */
  ghost predicate Lists(at: seq<nat>, keep: set<nat>) {
    && (forall j, k :: 0 <= j < k < |at| ==> at[j] < at[k])
    && (forall i :: i in at <==> i in keep)
  }

  lemma ListsOneMore(at: seq<nat>, keep: set<nat>, n: nat)
    requires Lists(at, keep) && forall i :: i in keep ==> i < n
    ensures Lists(at + [n], keep + {n})
  {
    forall k | 0 <= k < |at| ensures at[k] < n {
      assert at[k] in at;
    }
  }

  lemma LastIsGreatest(at: seq<nat>, keep: set<nat>)
    requires Lists(at, keep) && at != []
    ensures at[|at| - 1] in keep && forall i :: i in keep ==> i <= at[|at| - 1]
  {
    assert at[|at| - 1] in at;
    forall i | i in keep ensures i <= at[|at| - 1] {
      var k :| 0 <= k < |at| && at[k] == i;
    }
  }

  lemma EmptyListsNothing(at: seq<nat>, keep: set<nat>)
    requires Lists(at, keep)
    ensures at == [] <==> keep == {}
  {
    if at != [] {
      assert at[0] in at;
    }
  }

  lemma {:induction false} ListsIsUnique(a: seq<nat>, b: seq<nat>, keep: set<nat>)
    requires Lists(a, keep) && Lists(b, keep)
    ensures a == b
    decreases |a|
  {
    EmptyListsNothing(a, keep);
    EmptyListsNothing(b, keep);
    if a != [] {
      LastIsGreatest(a, keep);
      LastIsGreatest(b, keep);
      var x := a[|a| - 1];
      assert b[|b| - 1] == x;
      DropLast(a, keep);
      DropLast(b, keep);
      ListsIsUnique(a[..|a| - 1], b[..|b| - 1], keep - {x});
      assert a == a[..|a| - 1] + [x] && b == b[..|b| - 1] + [x];
    }
  }

  lemma DropLast(a: seq<nat>, keep: set<nat>)
    requires Lists(a, keep) && a != []
    ensures Lists(a[..|a| - 1], keep - {a[|a| - 1]})
  {
    var most, x := a[..|a| - 1], a[|a| - 1];
    assert a == most + [x];
    forall i ensures i in most <==> i in keep - {x} {
      assert i in a <==> i in most || i == x;
      if i in most {
        var k :| 0 <= k < |most| && most[k] == i;
        assert a[k] < a[|a| - 1];
      }
    }
  }
}

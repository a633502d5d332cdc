/**
What the normal form of a path is for: the place where walking its components leads to.
*/
module PathWalks {
  import opened ShellPaths
  import opened ShellWords

  /** A place as seen from where a walk began: so many levels up, and then down through `below`. */
  datatype Place = Place(up: nat, below: seq<string>)

  /** Above the root there is nothing but the root. */
  function Stepped(place: Place, part: string, rooted: bool): Place {
    if part != ".." then Place(place.up, place.below + [part])
    else if place.below != [] then Place(place.up, place.below[..|place.below| - 1])
    else if rooted then place
    else Place(place.up + 1, [])
  }

  function Walked(place: Place, parts: seq<string>, rooted: bool): Place
    decreases parts
  {
    if parts == [] then place else Walked(Stepped(place, parts[0], rooted), parts[1..], rooted)
  }

  function PlaceOf(path: string): Place {
    Walked(Place(0, []), Components(path), "/" <= path)
  }

  function Ups(n: nat): seq<string> {
    if n == 0 then [] else Ups(n - 1) + [".."]
  }

  function Way(place: Place): seq<string> {
    Ups(place.up) + place.below
  }

  ghost predicate IsPlace(place: Place, rooted: bool) {
    (rooted ==> place.up == 0) && forall part <- place.below :: part != ".."
  }

  lemma {:induction false} UpsAreUps(n: nat)
    ensures |Ups(n)| == n && forall i :: 0 <= i < n ==> Ups(n)[i] == ".."
  {
    if n > 0 {
      UpsAreUps(n - 1);
    }
  }

  lemma PushSteps(place: Place, part: string, rooted: bool)
    requires IsPlace(place, rooted)
    ensures Push(Way(place), part, rooted) == Way(Stepped(place, part, rooted))
    ensures IsPlace(Stepped(place, part, rooted), rooted)
  {
    UpsAreUps(place.up);
    var way, n := Way(place), |place.below|;
    if part != ".." {
      assert way + [part] == Ups(place.up) + (place.below + [part]);
    } else if n > 0 {
      assert place.below[n - 1] in place.below && way[|way| - 1] == place.below[n - 1];
      forall p <- Stepped(place, part, rooted).below ensures p != ".." {
        assert p in place.below[..n - 1] && p in place.below;
      }
      assert way[..|way| - 1] == Ups(place.up) + place.below[..n - 1];
    } else {
      assert way == Ups(place.up);
      assert Ups(place.up + 1) + [] == Ups(place.up) + [".."];
    }
  }

  lemma {:induction false} ReduceWalks(place: Place, parts: seq<string>, rooted: bool)
    requires IsPlace(place, rooted)
    ensures Reduce(Way(place), parts, rooted) == Way(Walked(place, parts, rooted))
    ensures IsPlace(Walked(place, parts, rooted), rooted)
    decreases parts
  {
    if parts != [] {
      PushSteps(place, parts[0], rooted);
      ReduceWalks(Stepped(place, parts[0], rooted), parts[1..], rooted);
    }
  }

  lemma AbsoluteIff(path: string)
    ensures "/" <= path <==> Slashes(path) > 0
  {
  }

  /** The normal form has as many `..` as the walk ends above its beginning, and then the components below, none of
      which is `..`; and it is absolute exactly if the path is. */
  lemma NormpathIsTheWay(path: string)
    ensures Components(Normpath(path)) == Ups(PlaceOf(path).up) + PlaceOf(path).below
    ensures forall part <- PlaceOf(path).below :: part != ".."
    ensures "/" <= path ==> PlaceOf(path).up == 0
    ensures "/" <= Normpath(path) <==> "/" <= path
  {
    NormpathIsRead(path);
    AbsoluteIff(path);
    AbsoluteIff(Normpath(path));
    assert Way(Place(0, [])) == [];
    ReduceWalks(Place(0, []), Components(path), "/" <= path);
  }

  lemma {:induction false} WalkUps(n: nat, more: seq<string>, from: nat)
    ensures Walked(Place(from, []), Ups(n) + more, false) == Walked(Place(from + n, []), more, false)
    decreases n
  {
    if n == 0 {
      assert Ups(0) + more == more;
    } else {
      assert Ups(n) + more == Ups(n - 1) + ([".."] + more);
      WalkUps(n - 1, [".."] + more, from);
      assert ([".."] + more)[1..] == more;
    }
  }

  lemma {:induction false} WalkDown(place: Place, parts: seq<string>, rooted: bool)
    requires forall part <- parts :: part != ".."
    ensures Walked(place, parts, rooted) == Place(place.up, place.below + parts)
    decreases parts
  {
    if parts == [] {
      assert place.below + [] == place.below;
    } else {
      assert parts[0] in parts && forall part <- parts[1..] :: part in parts;
      WalkDown(Stepped(place, parts[0], rooted), parts[1..], rooted);
      assert place.below + [parts[0]] + parts[1..] == place.below + parts;
    }
  }

  /** So it leads to the same place as the path. */
  lemma NormpathLeadsToTheSame(path: string)
    ensures PlaceOf(Normpath(path)) == PlaceOf(path)
  {
    NormpathIsTheWay(path);
    var place, rooted := PlaceOf(path), "/" <= path;
    if rooted {
      assert Ups(0) + place.below == place.below;
      WalkDown(Place(0, []), place.below, true);
    } else {
      WalkUps(place.up, place.below, 0);
      WalkDown(Place(place.up, []), place.below, false);
    }
    assert [] + place.below == place.below;
  }

  /** Two paths have the same components in their normal forms exactly if they lead to the same place. */
  lemma SameFormIffSamePlace(a: string, b: string)
    ensures PlaceOf(a) == PlaceOf(b) <==> Components(Normpath(a)) == Components(Normpath(b))
  {
    NormpathIsTheWay(a);
    NormpathIsTheWay(b);
    if Components(Normpath(a)) == Components(Normpath(b)) {
      SameWay(PlaceOf(a), PlaceOf(b));
    }
  }

  function Leading(parts: seq<string>): nat {
    if parts == [] || parts[0] != ".." then 0 else 1 + Leading(parts[1..])
  }

  lemma {:induction false} LeadingOfWay(n: nat, below: seq<string>)
    requires forall part <- below :: part != ".."
    ensures Leading(Ups(n) + below) == n
  {
    var way := Ups(n) + below;
    UpsAreUps(n);
    if n == 0 {
      assert way == below;
      assert below != [] ==> below[0] in below;
    } else {
      UpsAreUps(n - 1);
      assert way[1..] == Ups(n - 1) + below;
      LeadingOfWay(n - 1, below);
    }
  }

  lemma SameWay(p: Place, q: Place)
    requires Way(p) == Way(q) && IsPlace(p, false) && IsPlace(q, false)
    ensures p == q
  {
    LeadingOfWay(p.up, p.below);
    LeadingOfWay(q.up, q.below);
    UpsAreUps(p.up);
    assert p.below == Way(p)[p.up..] && q.below == Way(q)[q.up..];
  }

  /** The components are what is between the slashes, but for nothing and a single dot. */
  lemma ComponentsOf(part: string, rest: string)
    requires '/' !in part
    ensures var here := if part == "" || part == "." then [] else [part];
      Components(part) == here && Components(part + "/" + rest) == here + Components(rest)
  {
    SplitOfPlain(part);
    assert ProperOnes([part]) == (if Proper(part) then [part] else []) + ProperOnes([]);
    ComponentsOfTwo(part, rest);
  }

  // Expansions

  /** A command or a variable to expand stands at `i`. */
  predicate ExpandsAt(word: string, i: nat)
    requires i < |word|
  {
    || word[i] == '`'
    || (word[i] == '$' && i + 1 < |word|
        && (word[i + 1] == '(' || word[i + 1] == '{' || word[i + 1] == '_'
            || 'a' <= word[i + 1] <= 'z' || 'A' <= word[i + 1] <= 'Z'))
  }

  lemma {:induction false} HasExpansionIff(word: string)
    ensures HasExpansion(word) <==> exists i :: 0 <= i < |word| && ExpandsAt(word, i)
  {
    if word != [] {
      HasExpansionIff(word[1..]);
      assert ExpandsAt(word, 0) ==> HasExpansion(word);
      if i :| 0 <= i < |word| && ExpandsAt(word, i) {
        assert i > 0 ==> ExpandsAt(word[1..], i - 1);
      }
      if i :| 0 <= i < |word[1..]| && ExpandsAt(word[1..], i) {
        assert ExpandsAt(word, i + 1);
      }
    }
  }

  /** A word has still to be expanded if it starts with a tilde, or an expansion stands in it. */
  lemma IsDynamicIff(word: string)
    ensures IsDynamic(word) <==>
            (word != "" && word[0] == '~') || exists i :: 0 <= i < |word| && ExpandsAt(word, i)
  {
    HasExpansionIff(word);
  }
}

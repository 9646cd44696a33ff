/**
 A sequence of events seen as a client sees it that ignores what it has seen before: the first
 occurrence of each event, and the repeats. Both go over concatenation; a sequence without repeats that
 shares nothing with what was seen is all new, one whose members were all seen is all old. From this
 follow the two shapes of a replay with a live queue behind it: an overlap in order, and, when the ring
 turned over between registration and replay, a part that comes before what is queued ahead of it.
 */
module StreamRepeats {
  import opened Events

  /** The first occurrence of each event not in `seen`, in order. */
  function FirstSeen(xs: seq<Event>, seen: set<Event>): seq<Event> {
    if xs == [] then []
    else (if xs[0] in seen then [] else [xs[0]]) + FirstSeen(xs[1..], seen + {xs[0]})
  }

  /** The other occurrences, in order. */
  function Repeats(xs: seq<Event>, seen: set<Event>): seq<Event> {
    if xs == [] then []
    else (if xs[0] in seen then [xs[0]] else []) + Repeats(xs[1..], seen + {xs[0]})
  }

  function Members(xs: seq<Event>): set<Event> {
    set x | x in xs
  }

  lemma {:induction false} SeenConcat(xs: seq<Event>, ys: seq<Event>, seen: set<Event>)
    ensures FirstSeen(xs + ys, seen) == FirstSeen(xs, seen) + FirstSeen(ys, seen + Members(xs))
    ensures Repeats(xs + ys, seen) == Repeats(xs, seen) + Repeats(ys, seen + Members(xs))
  {
    if xs == [] {
      assert xs + ys == ys && seen + Members(xs) == seen;
    } else {
      assert (xs + ys)[1..] == xs[1..] + ys && (xs + ys)[0] == xs[0];
      SeenConcat(xs[1..], ys, seen + {xs[0]});
      assert seen + Members(xs) == (seen + {xs[0]}) + Members(xs[1..]) by {
        assert xs == [xs[0]] + xs[1..];
      }
      var rest := seen + Members(xs);
      var a, r := if xs[0] in seen then [] else [xs[0]], if xs[0] in seen then [xs[0]] else [];
      assert a + (FirstSeen(xs[1..], seen + {xs[0]}) + FirstSeen(ys, rest))
          == (a + FirstSeen(xs[1..], seen + {xs[0]})) + FirstSeen(ys, rest);
      assert r + (Repeats(xs[1..], seen + {xs[0]}) + Repeats(ys, rest))
          == (r + Repeats(xs[1..], seen + {xs[0]})) + Repeats(ys, rest);
    }
  }

  ghost predicate Distinct(xs: seq<Event>) {
    forall i, j :: 0 <= i < j < |xs| ==> xs[i] != xs[j]
  }

  lemma DistinctParts(xs: seq<Event>, ys: seq<Event>)
    requires Distinct(xs + ys)
    ensures Distinct(xs)
    ensures Distinct(ys)
    ensures Members(xs) !! Members(ys)
  {
    assert forall i :: 0 <= i < |xs| ==> (xs + ys)[i] == xs[i];
    assert forall i :: 0 <= i < |ys| ==> (xs + ys)[|xs| + i] == ys[i];
  }

  lemma MembersConcat(xs: seq<Event>, ys: seq<Event>)
    ensures Members(xs + ys) == Members(xs) + Members(ys)
  {
  }

  lemma {:induction false} AllNew(xs: seq<Event>, seen: set<Event>)
    requires Distinct(xs) && Members(xs) !! seen
    ensures FirstSeen(xs, seen) == xs
    ensures Repeats(xs, seen) == []
  {
    if xs != [] {
      assert xs == [xs[0]] + xs[1..] && Members([xs[0]]) == {xs[0]};
      DistinctParts([xs[0]], xs[1..]);
      MembersConcat([xs[0]], xs[1..]);
      hide Distinct, Members;
      AllNew(xs[1..], seen + {xs[0]});
    }
  }

  lemma {:induction false} AllOld(xs: seq<Event>, seen: set<Event>)
    requires Members(xs) <= seen
    ensures FirstSeen(xs, seen) == []
    ensures Repeats(xs, seen) == xs
  {
    if xs != [] {
      assert xs[0] in Members(xs);
      AllOld(xs[1..], seen + {xs[0]});
    }
  }

  lemma {:induction false} SelectDistinct(f: Filter, es: seq<Event>)
    requires UniqueIds(es)
    ensures Distinct(Select(f, es))
  {
    if es != [] {
      var rest := Select(f, es[1..]);
      assert UniqueIds(es[1..]);
      SelectDistinct(f, es[1..]);
      SelectMembers(f, es[1..]);
      assert es[0] !in es[1..];
      assert forall k :: 0 <= k < |rest| ==> rest[k] in rest;
    }
  }

  /** New events, some of them again, then more new ones. */
  lemma OverlapSeen(ab: seq<Event>, b: seq<Event>, d: seq<Event>)
    requires Distinct(ab + d) && Members(b) <= Members(ab)
    ensures FirstSeen(ab + (b + d), {}) == ab + d
    ensures Repeats(ab + (b + d), {}) == b
  {
    hide FirstSeen, Repeats, Distinct;
    var seen := Members(ab);
    DistinctParts(ab, d);
    SeenConcat(ab, b + d, {});
    SeenConcat(b, d, seen);
    assert {} + Members(ab) == seen && seen + Members(b) == seen;
    AllNew(ab, {});
    AllOld(b, seen);
    AllNew(d, seen);
  }

  /** When the ring turned over between registration and replay, the replay starts after part of
      what is queued. */
  lemma OverlapTurned(a: seq<Event>, b: seq<Event>, d: seq<Event>)
    requires Distinct(a + (b + d))
    ensures FirstSeen(b + (a + (b + d)), {}) == b + (a + d)
    ensures Repeats(b + (a + (b + d)), {}) == b
  {
    hide FirstSeen, Repeats, Distinct, Members;
    DistinctParts(a, b + d);
    DistinctParts(b, d);
    MembersConcat(b, d);
    var seen := Members(b) + Members(a);
    SeenConcat(b, a + (b + d), {});
    SeenConcat(a, b + d, Members(b));
    SeenConcat(b, d, seen);
    assert {} + Members(b) == Members(b) && seen + Members(b) == seen;
    AllNew(b, {});
    AllNew(a, Members(b));
    AllOld(b, seen);
    AllNew(d, seen);
  }

  lemma SwappedIff(a: seq<Event>, b: seq<Event>, d: seq<Event>)
    requires Distinct(a + (b + d))
    ensures b + (a + d) == a + (b + d) <==> a == [] || b == []
  {
    if a != [] && b != [] {
      var all := a + (b + d);
      assert all[0] == a[0] && all[|a|] == b[0] && all[0] != all[|a|];
      assert (b + (a + d))[0] == b[0];
    } else {
      assert a == [] || b == [] ==> b + (a + d) == a + (b + d);
    }
  }
}

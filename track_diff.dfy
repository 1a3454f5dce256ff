/** The difference between two track lists, by track id (`Diff::calculate` in `src/persistence.rs`). */
module TrackDiff {
  import opened Spotify

  /** The value serialised to `diff.json`. */
  datatype Diff = Diff(added: seq<Item>, removed: seq<Item>)

  /** The set of ids occurring in a track list (the `HashSet` of `t.track.id`). */
  function Ids(items: seq<Item>): set<string> {
    if items == [] then {} else {items[0].Id()} + Ids(items[1..])
  }

  /** The items whose id is in `ids`, in their original order (the `filter` against a precomputed id set). */
  function KeepIds(items: seq<Item>, ids: set<string>): seq<Item> {
    if items == [] then []
    else (if items[0].Id() in ids then [items[0]] else []) + KeepIds(items[1..], ids)
  }

  /** Whether some track of `items` has id `id`; stated without sets, for the reference definition. */
  predicate HasId(items: seq<Item>, id: string) {
    exists j :: 0 <= j < |items| && items[j].Id() == id
  }

  /** Reference definition: the tracks of `items`, in order and with repetitions, whose id occurs
      nowhere in `others`. */
  function Unmatched(items: seq<Item>, others: seq<Item>): seq<Item> {
    if items == [] then []
    else (if HasId(others, items[0].Id()) then [] else [items[0]]) + Unmatched(items[1..], others)
  }

  /** `a` is `b` with some elements left out, the others in the same order. */
  predicate IsSubsequence(a: seq<Item>, b: seq<Item>) {
    if a == [] then true
    else if b == [] then false
    else if a[0] == b[0] then IsSubsequence(a[1..], b[1..])
    else IsSubsequence(a, b[1..])
  }

  /** `Diff::calculate`: the id sets of both lists, their two differences, then each list filtered by
      the difference it feeds. The result is the reference definition in both directions. */
  function Calculate(oldTracks: seq<Item>, newTracks: seq<Item>): (d: Diff)
    ensures d.added == Unmatched(newTracks, oldTracks)
    ensures d.removed == Unmatched(oldTracks, newTracks)
  {
    var oldIds := Ids(oldTracks);
    var newIds := Ids(newTracks);
    var addedIds := newIds - oldIds;
    var removedIds := oldIds - newIds;
    KeepDifferenceIsUnmatched(newTracks, newIds, oldTracks);
    KeepDifferenceIsUnmatched(oldTracks, oldIds, newTracks);
    Diff(KeepIds(newTracks, addedIds), KeepIds(oldTracks, removedIds))
  }

  /** The id set and the existential agree. */
  lemma {:induction false} IdsHasId(items: seq<Item>, id: string)
    ensures id in Ids(items) <==> HasId(items, id)
  {
    if items != [] {
      IdsHasId(items[1..], id);
      if HasId(items[1..], id) {
        var j :| 0 <= j < |items[1..]| && items[1..][j].Id() == id;
        assert items[j + 1].Id() == id;
      }
      if HasId(items, id) && items[0].Id() != id {
        var j :| 0 <= j < |items| && items[j].Id() == id;
        assert items[1..][j - 1].Id() == id;
      }
    }
  }

  /** Filtering by `own - Ids(others)` keeps exactly the unmatched items, provided every id of
      `items` is in `own`. */
  lemma {:induction false} KeepDifferenceIsUnmatched(items: seq<Item>, own: set<string>, others: seq<Item>)
    requires Ids(items) <= own
    ensures KeepIds(items, own - Ids(others)) == Unmatched(items, others)
  {
    if items != [] {
      IdsHasId(others, items[0].Id());
      KeepDifferenceIsUnmatched(items[1..], own, others);
    }
  }

  /** The ids that survive a filter are those of the input that the filter admits. */
  lemma {:induction false} IdsOfKeep(items: seq<Item>, ids: set<string>)
    ensures Ids(KeepIds(items, ids)) == Ids(items) * ids
  {
    if items != [] {
      IdsOfKeep(items[1..], ids);
      var head := if items[0].Id() in ids then [items[0]] else [];
      IdsOfConcat(head, KeepIds(items[1..], ids));
    }
  }

  lemma {:induction false} IdsOfConcat(a: seq<Item>, b: seq<Item>)
    ensures Ids(a + b) == Ids(a) + Ids(b)
  {
    if a == [] {
      assert a + b == b;
    } else {
      assert (a + b)[1..] == a[1..] + b;
      IdsOfConcat(a[1..], b);
    }
  }

  /** The unmatched items keep the order of `items`. */
  lemma {:induction false} UnmatchedIsSubsequence(items: seq<Item>, others: seq<Item>)
    ensures IsSubsequence(Unmatched(items, others), items)
  {
    if items != [] {
      UnmatchedIsSubsequence(items[1..], others);
      var rest := Unmatched(items[1..], others);
      if !HasId(others, items[0].Id()) {
        assert Unmatched(items, others) == [items[0]] + rest;
        assert ([items[0]] + rest)[1..] == rest;
      } else {
        assert Unmatched(items, others) == rest;
        SubsequenceOfTail(rest, items);
      }
    }
  }

  /** A subsequence of the tail is a subsequence of the whole list. */
  lemma {:induction false} SubsequenceOfTail(a: seq<Item>, b: seq<Item>)
    requires b != [] && IsSubsequence(a, b[1..])
    ensures IsSubsequence(a, b)
    decreases |b|, 0
  {
    if a != [] && a[0] == b[0] {
      SubsequenceDropHead(a, b[1..]);
    }
  }

  /** Leaving out the first element of a subsequence keeps it a subsequence. */
  lemma {:induction false} SubsequenceDropHead(a: seq<Item>, c: seq<Item>)
    requires a != [] && IsSubsequence(a, c)
    ensures IsSubsequence(a[1..], c)
    decreases |c|, 1
  {
    if a[0] != c[0] {
      SubsequenceDropHead(a, c[1..]);
    }
    SubsequenceOfTail(a[1..], c);
  }

  /** Every occurrence of an unmatched track is kept: duplicates survive together or not at all. */
  lemma {:induction false} UnmatchedCounts(items: seq<Item>, others: seq<Item>, t: Item)
    ensures multiset(Unmatched(items, others))[t]
         == if HasId(others, t.Id()) then 0 else multiset(items)[t]
  {
    if items != [] {
      UnmatchedCounts(items[1..], others, t);
      assert items == [items[0]] + items[1..];
      var head := if HasId(others, items[0].Id()) then [] else [items[0]];
      assert multiset(head + Unmatched(items[1..], others))
          == multiset(head) + multiset(Unmatched(items[1..], others));
    }
  }

  /** The added tracks are the new list's unmatched tracks in the new list's order, with every
      repetition; the removed tracks likewise for the old list. */
  lemma DiffKeepsOrderAndRepetitions(oldTracks: seq<Item>, newTracks: seq<Item>, t: Item)
    ensures var d := Calculate(oldTracks, newTracks);
      && IsSubsequence(d.added, newTracks)
      && IsSubsequence(d.removed, oldTracks)
      && multiset(d.added)[t] == (if t.Id() in Ids(oldTracks) then 0 else multiset(newTracks)[t])
      && multiset(d.removed)[t] == (if t.Id() in Ids(newTracks) then 0 else multiset(oldTracks)[t])
  {
    UnmatchedIsSubsequence(newTracks, oldTracks);
    UnmatchedIsSubsequence(oldTracks, newTracks);
    UnmatchedCounts(newTracks, oldTracks, t);
    UnmatchedCounts(oldTracks, newTracks, t);
    IdsHasId(oldTracks, t.Id());
    IdsHasId(newTracks, t.Id());
  }

  /** The added ids, the removed ids and the shared ids partition all ids, and the added and
      removed ids are exactly the two set differences. */
  lemma DiffPartitionsIds(oldTracks: seq<Item>, newTracks: seq<Item>)
    ensures var d := Calculate(oldTracks, newTracks);
      var shared := Ids(oldTracks) * Ids(newTracks);
      && Ids(d.added) == Ids(newTracks) - Ids(oldTracks)
      && Ids(d.removed) == Ids(oldTracks) - Ids(newTracks)
      && Ids(d.added) !! Ids(d.removed)
      && Ids(d.added) !! shared
      && Ids(d.removed) !! shared
      && Ids(d.added) + Ids(d.removed) + shared == Ids(oldTracks) + Ids(newTracks)
  {
    IdsOfKeep(newTracks, Ids(newTracks) - Ids(oldTracks));
    IdsOfKeep(oldTracks, Ids(oldTracks) - Ids(newTracks));
  }

  /** A track whose id occurs in both lists is in neither output, whatever its other fields. */
  lemma SharedIdInNeither(oldTracks: seq<Item>, newTracks: seq<Item>, id: string)
    requires HasId(oldTracks, id) && HasId(newTracks, id)
    ensures forall t :: t in Calculate(oldTracks, newTracks).added ==> t.Id() != id
    ensures forall t :: t in Calculate(oldTracks, newTracks).removed ==> t.Id() != id
  {
    var d := Calculate(oldTracks, newTracks);
    DiffPartitionsIds(oldTracks, newTracks);
    IdsHasId(oldTracks, id);
    IdsHasId(newTracks, id);
    forall t | t in d.added ensures t.Id() != id {
      var k :| 0 <= k < |d.added| && d.added[k] == t;
      IdsHasId(d.added, id);
    }
    forall t | t in d.removed ensures t.Id() != id {
      var k :| 0 <= k < |d.removed| && d.removed[k] == t;
      IdsHasId(d.removed, id);
    }
  }

  /** Comparing a list with itself yields nothing added and nothing removed. */
  lemma CalculateSelf(tracks: seq<Item>)
    ensures Calculate(tracks, tracks) == Diff([], [])
  {
    var d := Calculate(tracks, tracks);
    DiffPartitionsIds(tracks, tracks);
    EmptyIds(d.added);
    EmptyIds(d.removed);
  }

  lemma {:induction false} EmptyIds(items: seq<Item>)
    requires Ids(items) == {}
    ensures items == []
  {
  }

  /** Two generations {t1, t2} then {t2, t3}: t3 was added and t1 removed. */
  lemma TwoGenerations(t1: Item, t2: Item, t3: Item)
    requires t1.Id() != t2.Id() && t2.Id() != t3.Id() && t1.Id() != t3.Id()
    ensures Calculate([t1, t2], [t2, t3]) == Diff([t3], [t1])
  {
    assert HasId([t1, t2], t2.Id()) by { assert [t1, t2][1] == t2; }
    assert HasId([t2, t3], t2.Id()) by { assert [t2, t3][0] == t2; }
    assert !HasId([t1, t2], t3.Id());
    assert !HasId([t2, t3], t1.Id());
    assert [t2, t3][1..] == [t3] && [t3][1..] == [];
    assert [t1, t2][1..] == [t2] && [t2][1..] == [];
    assert Unmatched([t2, t3], [t1, t2]) == Unmatched([t3], [t1, t2]) == [t3];
    assert Unmatched([t1, t2], [t2, t3]) == [t1] + Unmatched([t2], [t2, t3]) == [t1];
  }
}

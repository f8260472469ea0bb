/**
 Seeding a new list from a decoded payload: every item with index 0 takes its
 1-based position as index, every empty status becomes "open", and the payload
 is refused when two items end up with the same index.
 */
module Seeding {
  import opened Items

  /** The item at 1-based position `pos` once defaults are filled in. */
  function Normalized(it: Item, pos: int): Item {
    it.(index := if it.index == 0 then pos else it.index,
        status := if it.status == "" then Open else it.status)
  }

  /** The payload with defaults filled in, position by position. */
  function Assigned(s: seq<Item>): (r: seq<Item>)
    ensures |r| == |s|
    ensures forall i :: 0 <= i < |r| ==> r[i].index != 0 && r[i].status != ""
  {
    seq(|s|, i requires 0 <= i < |s| => Normalized(s[i], i + 1))
  }

  /** The seed loop: fills in defaults in place, remembering every index seen,
      and stops at the first index that was already seen. */
  method AssignIndices(payload: seq<Item>) returns (ok: bool, items: seq<Item>)
    ensures ok <==> DistinctIndices(Assigned(payload))
    ensures ok ==> items == Assigned(payload)
  {
    items := payload;
    var seen: set<int> := {};
    var i := 0;
    while i < |items|
      invariant 0 <= i <= |items| == |payload|
      invariant forall j :: 0 <= j < i ==> items[j] == Normalized(payload[j], j + 1)
      invariant forall j :: i <= j < |items| ==> items[j] == payload[j]
      invariant seen == set j | 0 <= j < i :: items[j].index
      invariant forall a, b :: 0 <= a < b < i ==> items[a].index != items[b].index
    {
      var it := items[i];
      if it.index == 0 {
        it := it.(index := i + 1);
      }
      if it.index in seen {
        ghost var j :| 0 <= j < i && items[j].index == it.index;
        assert Assigned(payload)[j].index == Assigned(payload)[i].index;
        return false, items[i := it];
      }
      seen := seen + {it.index};
      if it.status == "" {
        it := it.(status := Open);
      }
      items := items[i := it];
      i := i + 1;
    }
    assert items == Assigned(payload);
    ok := true;
  }

  /** Filling in defaults a second time changes nothing. */
  lemma AssignedIdempotent(s: seq<Item>)
    ensures Assigned(Assigned(s)) == Assigned(s)
  {
    var a := Assigned(s);
    forall i | 0 <= i < |s|
      ensures Assigned(a)[i] == a[i]
    {
      assert a[i].index != 0 && a[i].status != "";
    }
  }

  /** A payload that supplies no index is numbered 1, 2, 3, ... in order, so
      seeding it is never refused. */
  lemma PositionalIndices(s: seq<Item>)
    requires forall i :: 0 <= i < |s| ==> s[i].index == 0
    ensures forall i :: 0 <= i < |s| ==> Assigned(s)[i].index == i + 1
    ensures DistinctIndices(Assigned(s))
  {
  }

  /** Seeding is refused exactly when two supplied indices are equal, or a
      supplied index equals the position of an item that supplied none. */
  lemma SeedAccepted(s: seq<Item>)
    ensures DistinctIndices(Assigned(s)) <==>
      && (forall i, j :: 0 <= i < j < |s| && s[i].index != 0 && s[j].index != 0 ==>
            s[i].index != s[j].index)
      && (forall i, j :: 0 <= i < |s| && 0 <= j < |s| && s[i].index != 0 && s[j].index == 0 ==>
            s[i].index != j + 1)
  {
    var a := Assigned(s);
    if DistinctIndices(a) {
      forall i, j | 0 <= i < j < |s| && s[i].index != 0 && s[j].index != 0
        ensures s[i].index != s[j].index
      {
        assert a[i].index == s[i].index && a[j].index == s[j].index;
      }
      forall i, j | 0 <= i < |s| && 0 <= j < |s| && s[i].index != 0 && s[j].index == 0
        ensures s[i].index != j + 1
      {
        assert a[i].index == s[i].index && a[j].index == j + 1;
        assert i != j;
        if i < j { assert a[i].index != a[j].index; } else { assert a[j].index != a[i].index; }
      }
    } else {
      var i, j :| 0 <= i < j < |s| && a[i].index == a[j].index;
      if s[i].index == 0 && s[j].index != 0 {
        assert a[j].index == s[j].index == i + 1;
      } else if s[i].index != 0 && s[j].index == 0 {
        assert a[i].index == s[i].index == j + 1;
      } else if s[i].index != 0 {
        assert s[i].index == s[j].index;
      }
    }
  }

  /** The smallest refused payload that holds no duplicate supplied index:
      the first item claims index 2, which the second is assigned by position. */
  lemma ExplicitMeetsPosition(doc: string)
    ensures !DistinctIndices(Assigned([Item(2, doc, "", "", ""), Item(0, doc, "", "", "")]))
  {
    var a := Assigned([Item(2, doc, "", "", ""), Item(0, doc, "", "", "")]);
    assert a[0].index == 2 && a[1].index == 2;
  }
}

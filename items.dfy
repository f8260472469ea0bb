/**
 Review items and the pure facts about sequences of them that the store's
 handlers rely on: which item is the first open one, how many are open, and
 what closing an item does to a list.
 */
module Items {

  datatype Option<+T> = None | Some(value: T)

  /** One unit of review work, field for field as the JSON record carries it.
      `status` is free text: only the exact string "open" counts as open. */
  datatype Item = Item(
    index: int,
    document: string,
    conflict: string,
    newStatement: string,
    status: string)

  const Open: string := "open"
  const Closed: string := "closed"

  predicate IsOpen(it: Item) {
    it.status == Open
  }

  /** The position of the first open item in stored order, if any. */
  function FirstOpen(s: seq<Item>): (r: Option<nat>)
    ensures r.Some? ==> r.value < |s| && IsOpen(s[r.value])
    ensures r.Some? ==> forall j :: 0 <= j < r.value ==> !IsOpen(s[j])
    ensures r.None? <==> forall j :: 0 <= j < |s| ==> !IsOpen(s[j])
  {
    if s == [] then None
    else if IsOpen(s[0]) then Some(0)
    else
      match FirstOpen(s[1..])
      case None => None
      case Some(k) => Some(k + 1)
  }

  /** The number of items whose status is exactly "open". */
  function OpenCount(s: seq<Item>): (r: nat)
    ensures r <= |s|
    ensures r == 0 <==> forall j :: 0 <= j < |s| ==> !IsOpen(s[j])
  {
    if s == [] then 0
    else OpenCount(s[..|s| - 1]) + (if IsOpen(s[|s| - 1]) then 1 else 0)
  }

  /** The list after the item at position `k` has been marked closed. */
  function CloseAt(s: seq<Item>, k: nat): seq<Item>
    requires k < |s|
  {
    s[k := s[k].(status := Closed)]
  }

  /** No two items of the list share an index. */
  predicate DistinctIndices(s: seq<Item>) {
    forall i, j :: 0 <= i < j < |s| ==> s[i].index != s[j].index
  }

  /** How a stored list may change between two states: no item is added,
      removed, moved or re-indexed, and each item either stays as it was or
      becomes closed. */
  predicate Evolves(before: seq<Item>, after: seq<Item>) {
    && |after| == |before|
    && forall k :: 0 <= k < |before| ==>
         after[k] == before[k] || after[k] == before[k].(status := Closed)
  }

  lemma {:induction false} CloseAtOpenCount(s: seq<Item>, k: nat)
    requires k < |s|
    ensures OpenCount(CloseAt(s, k)) == OpenCount(s) - (if IsOpen(s[k]) then 1 else 0)
  {
    var t := CloseAt(s, k);
    var n := |s| - 1;
    if k == n {
      assert t[..n] == s[..n];
    } else {
      assert t[..n] == CloseAt(s[..n], k);
      CloseAtOpenCount(s[..n], k);
    }
  }

  /** Closing the first open item lowers the open count by exactly one and
      moves the first open item strictly further along (or leaves none). */
  lemma CloseFirstOpen(s: seq<Item>)
    requires FirstOpen(s).Some?
    ensures OpenCount(CloseAt(s, FirstOpen(s).value)) == OpenCount(s) - 1
    ensures var after := FirstOpen(CloseAt(s, FirstOpen(s).value));
            after.None? || after.value > FirstOpen(s).value
    ensures OpenCount(s) == 1 ==> FirstOpen(CloseAt(s, FirstOpen(s).value)).None?
  {
    CloseAtOpenCount(s, FirstOpen(s).value);
  }

  lemma CloseAtEvolves(s: seq<Item>, k: nat)
    requires k < |s|
    ensures Evolves(s, CloseAt(s, k))
    ensures CloseAt(s, k)[k].index == s[k].index && !IsOpen(CloseAt(s, k)[k])
  {
  }

  /** Evolution never re-opens anything: the open count cannot grow. */
  lemma {:induction false} EvolvesOpenCount(before: seq<Item>, after: seq<Item>)
    requires Evolves(before, after)
    ensures OpenCount(after) <= OpenCount(before)
  {
    if before != [] {
      var n := |before| - 1;
      assert Evolves(before[..n], after[..n]);
      EvolvesOpenCount(before[..n], after[..n]);
    }
  }

  /** Two evolution steps make one: a run of closes is itself an evolution,
      so the facts below about one step hold for any number of them. */
  lemma EvolvesTrans(a: seq<Item>, b: seq<Item>, c: seq<Item>)
    requires Evolves(a, b) && Evolves(b, c)
    ensures Evolves(a, c)
  {
  }

  /** Evolution keeps every index, so it keeps indices pairwise distinct. */
  lemma EvolvesDistinct(before: seq<Item>, after: seq<Item>)
    requires Evolves(before, after) && DistinctIndices(before)
    ensures DistinctIndices(after)
  {
    forall i, j | 0 <= i < j < |after|
      ensures after[i].index != after[j].index
    {
      assert after[i].index == before[i].index;
      assert after[j].index == before[j].index;
    }
  }
}

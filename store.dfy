/**
 The shared review-list store: a map from list name to its ordered items and
 one throttle delay in whole seconds. Each handler is one atomic transition;
 it answers with a value or an error kind, and on success also yields the one
 event it hands to the broadcast hub.
 */
module ReviewStore {
  import opened Items
  import opened Seeding

  /** The failure kinds a handler answers with (HTTP 409, 404 and 400). */
  datatype Error = Conflict | NotFound | BadRequest

  datatype Outcome<+T> = Ok(value: T) | Err(error: Error)

  /** A seed request body: either a decoded JSON array of items, or a body the
      JSON decoder refused. */
  datatype Payload = Malformed | Decoded(items: seq<Item>)

  /** The optional `index` query argument of a close request: absent (or
      empty), present but not an integer, or an integer. */
  datatype IndexArg = NoIndex | BadIndex | Index(n: int)

  /** What a successful handler hands to the broadcast hub. */
  datatype Event =
    | ListAdded(name: string)                     // {"event": "add_list", "name": ...}
    | ListSeeded(name: string, items: seq<Item>)  // the same, with "items"
    | ListDeleted(name: string)                   // {"name": ..., "deleted": true}
    | ItemsSent(items: seq<Item>)
    | ItemSent(item: Item)

  /** One line of the summary: total items and open items of a list. */
  datatype Entry = Entry(count: nat, open: nat)

  /** The summary, keyed by list name (the source emits the lines in map
      iteration order, which is unspecified), plus the delay in seconds. */
  datatype Summary = Summary(lists: map<string, Entry>, delay: int)

  const MaxDelay: int := 600

  /** Every list present in both states has only evolved (see Items.Evolves). */
  ghost predicate AllEvolve(before: map<string, seq<Item>>, after: map<string, seq<Item>>) {
    forall n :: n in before && n in after ==> Evolves(before[n], after[n])
  }

  class Store {
    var lists: map<string, seq<Item>>
    var delay: int

    ghost predicate Valid()
      reads this
    {
      && 0 <= delay <= MaxDelay
      && forall n :: n in lists ==> DistinctIndices(lists[n])
    }

    /** A new store holds no list and no delay. */
    constructor ()
      ensures Valid()
      ensures lists == map[] && delay == 0
    {
      lists := map[];
      delay := 0;
    }

    /** Create an empty list under a name not yet in use. */
    method CreateList(name: string) returns (r: Outcome<string>, ev: Option<Event>)
      requires Valid()
      modifies this`lists
      ensures Valid() && AllEvolve(old(lists), lists)
      ensures name in old(lists) ==> r == Err(Conflict) && ev == None && lists == old(lists)
      ensures name !in old(lists) ==>
        && r == Ok(name) && ev == Some(ListAdded(name))
        && lists == old(lists)[name := []]
    {
      if name in lists {
        return Err(Conflict), None;
      }
      lists := lists[name := []];
      r, ev := Ok(name), Some(ListAdded(name));
    }

    /** Create a list under a name not yet in use from a payload of items,
        filling in indices and statuses; a payload whose indices then clash is
        refused and nothing is stored. */
    method SeedList(name: string, payload: Payload) returns (r: Outcome<seq<Item>>, ev: Option<Event>)
      requires Valid()
      modifies this`lists
      ensures Valid() && AllEvolve(old(lists), lists)
      ensures name in old(lists) ==> r == Err(Conflict) && ev == None && lists == old(lists)
      ensures name !in old(lists) && payload.Malformed? ==>
        r == Err(BadRequest) && ev == None && lists == old(lists)
      ensures name !in old(lists) && payload.Decoded? && !DistinctIndices(Assigned(payload.items)) ==>
        r == Err(BadRequest) && ev == None && lists == old(lists)
      ensures name !in old(lists) && payload.Decoded? && DistinctIndices(Assigned(payload.items)) ==>
        && r == Ok(Assigned(payload.items))
        && ev == Some(ListSeeded(name, Assigned(payload.items)))
        && lists == old(lists)[name := Assigned(payload.items)]
    {
      if name in lists {
        return Err(Conflict), None;
      }
      if payload.Malformed? {
        return Err(BadRequest), None;
      }
      var ok, items := AssignIndices(payload.items);
      if !ok {
        return Err(BadRequest), None;
      }
      lists := lists[name := items];
      r, ev := Ok(items), Some(ListSeeded(name, items));
    }

    /** Remove a list and all its items. */
    method DeleteList(name: string) returns (r: Outcome<string>, ev: Option<Event>)
      requires Valid()
      modifies this`lists
      ensures Valid() && AllEvolve(old(lists), lists)
      ensures name !in old(lists) ==> r == Err(NotFound) && ev == None && lists == old(lists)
      ensures name in old(lists) ==>
        && r == Ok(name) && ev == Some(ListDeleted(name))
        && lists == old(lists) - {name}
    {
      if name !in lists {
        return Err(NotFound), None;
      }
      lists := lists - {name};
      r, ev := Ok(name), Some(ListDeleted(name));
    }

    /** The full item sequence of a list, in stored order. */
    method GetList(name: string) returns (r: Outcome<seq<Item>>, ev: Option<Event>)
      requires Valid()
      ensures r.Ok? <==> name in lists
      ensures r.Ok? ==> r.value == lists[name] && DistinctIndices(r.value)
      ensures r.Err? ==> r.error == NotFound
      ensures ev == if r.Ok? then Some(ItemsSent(r.value)) else None
    {
      if name !in lists {
        return Err(NotFound), None;
      }
      var items := lists[name];
      r, ev := Ok(items), Some(ItemsSent(items));
    }

    /** The first open item of a list, left as it is (a peek, not a dequeue). */
    method PeekOpen(name: string) returns (r: Outcome<Item>, ev: Option<Event>)
      requires Valid()
      ensures name !in lists ==> r == Err(NotFound)
      ensures name in lists && FirstOpen(lists[name]).None? ==> r == Err(NotFound)
      ensures name in lists && FirstOpen(lists[name]).Some? ==>
        r == Ok(lists[name][FirstOpen(lists[name]).value])
      ensures r.Ok? ==> IsOpen(r.value)
      ensures ev == if r.Ok? then Some(ItemSent(r.value)) else None
    {
      if name !in lists {
        return Err(NotFound), None;
      }
      var items := lists[name];
      var i := 0;
      while i < |items|
        invariant 0 <= i <= |items|
        invariant forall j :: 0 <= j < i ==> !IsOpen(items[j])
      {
        if items[i].status == Open {
          return Ok(items[i]), Some(ItemSent(items[i]));
        }
        i := i + 1;
      }
      r, ev := Err(NotFound), None;
    }

    /** Close the item at a 1-based position, or, without a position, the
        first open item. Closing an already closed item is not an error. */
    method CloseItem(name: string, index: IndexArg) returns (r: Outcome<Item>, ev: Option<Event>)
      requires Valid()
      modifies this`lists
      ensures Valid() && AllEvolve(old(lists), lists)
      ensures name !in old(lists) ==> r == Err(NotFound) && lists == old(lists)
      ensures name in old(lists) && index.BadIndex? ==> r == Err(BadRequest) && lists == old(lists)
      ensures name in old(lists) && index.Index? && !(1 <= index.n <= |old(lists)[name]|) ==>
        r == Err(BadRequest) && lists == old(lists)
      ensures name in old(lists) && index.Index? && 1 <= index.n <= |old(lists)[name]| ==>
        && lists == old(lists)[name := CloseAt(old(lists)[name], index.n - 1)]
        && r == Ok(lists[name][index.n - 1])
      ensures name in old(lists) && index.NoIndex? && FirstOpen(old(lists)[name]).None? ==>
        r == Err(NotFound) && lists == old(lists)
      ensures name in old(lists) && index.NoIndex? && FirstOpen(old(lists)[name]).Some? ==>
        && lists == old(lists)[name := CloseAt(old(lists)[name], FirstOpen(old(lists)[name]).value)]
        && r == Ok(lists[name][FirstOpen(old(lists)[name]).value])
      ensures r.Ok? ==> r.value.status == Closed
      ensures ev == if r.Ok? then Some(ItemSent(r.value)) else None
    {
      if name !in lists {
        return Err(NotFound), None;
      }
      var items := lists[name];
      if !index.NoIndex? {
        if index.BadIndex? || index.n < 1 || index.n > |items| {
          return Err(BadRequest), None;
        }
        var k := index.n - 1;
        CloseAtEvolves(items, k);
        EvolvesDistinct(items, CloseAt(items, k));
        lists := lists[name := items[k := items[k].(status := Closed)]];
        return Ok(lists[name][k]), Some(ItemSent(lists[name][k]));
      }
      var i := 0;
      while i < |items|
        invariant 0 <= i <= |items|
        invariant forall j :: 0 <= j < i ==> !IsOpen(items[j])
        invariant lists == old(lists)
      {
        if items[i].status == Open {
          CloseAtEvolves(items, i);
          EvolvesDistinct(items, CloseAt(items, i));
          lists := lists[name := items[i := items[i].(status := Closed)]];
          return Ok(lists[name][i]), Some(ItemSent(lists[name][i]));
        }
        i := i + 1;
      }
      r, ev := Err(NotFound), None;
    }

    /** Set the throttle delay; `secs` is None when the argument is not an
        integer. Only 0 through 600 seconds are accepted. */
    method SetDelay(secs: Option<int>) returns (r: Outcome<int>)
      requires Valid()
      modifies this`delay
      ensures Valid() && lists == old(lists)
      ensures secs.Some? && 0 <= secs.value <= MaxDelay ==> r == Ok(secs.value) && delay == secs.value
      ensures !(secs.Some? && 0 <= secs.value <= MaxDelay) ==> r == Err(BadRequest) && delay == old(delay)
    {
      if secs.None? || secs.value < 0 || secs.value > MaxDelay {
        return Err(BadRequest);
      }
      delay := secs.value;
      r := Ok(secs.value);
    }

    /** Per list its item count and open-item count, and the current delay. */
    method Meta() returns (s: Summary)
      requires Valid()
      ensures s.delay == delay && 0 <= s.delay <= MaxDelay
      ensures s.lists.Keys == lists.Keys
      ensures forall n :: n in lists ==>
        s.lists[n].count == |lists[n]| && s.lists[n].open == OpenCount(lists[n])
      ensures forall n :: n in s.lists ==> s.lists[n].open <= s.lists[n].count
    {
      var out: map<string, Entry> := map[];
      var pending := lists.Keys;
      while pending != {}
        invariant pending <= lists.Keys
        invariant out.Keys == lists.Keys - pending
        invariant forall n :: n in out ==>
          out[n].count == |lists[n]| && out[n].open == OpenCount(lists[n])
        decreases pending
      {
        var name :| name in pending;
        var items := lists[name];
        var open := 0;
        var i := 0;
        while i < |items|
          invariant 0 <= i <= |items|
          invariant open == OpenCount(items[..i])
        {
          assert items[..i + 1][..i] == items[..i];
          if items[i].status == Open {
            open := open + 1;
          }
          i := i + 1;
        }
        assert items[..i] == items;
        out := out[name := Entry(|items|, open)];
        pending := pending - {name};
      }
      s := Summary(out, delay);
    }
  }
}

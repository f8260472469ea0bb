/**
 Clients of the store that walk review lists through their life, using
 nothing but the handlers' contracts.
 */
module Session {
  import opened Items
  import opened Seeding
  import opened ReviewStore

  /** Seeding over a name made by an empty create is a conflict; deleting
      frees the name for reuse. */
  method CreateDeleteSeed()
  {
    var s := new Store();
    var draft := Item(0, "a.md", "x", "y", "");
    var c, cev := s.CreateList("todo");
    assert c == Ok("todo") && cev == Some(ListAdded("todo"));
    var again, _ := s.SeedList("todo", Decoded([draft]));
    assert again == Err(Conflict) && s.lists["todo"] == [];

    var d, _ := s.DeleteList("todo");
    assert d == Ok("todo");
    var gone, gev := s.GetList("todo");
    assert gone == Err(NotFound) && gev == None;
    var seeded, _ := s.SeedList("todo", Decoded([draft]));
    assert Assigned([draft]) == [Item(1, "a.md", "x", "y", Open)];
    assert seeded == Ok([Item(1, "a.md", "x", "y", Open)]);
  }

  /** Peeking twice yields the same item; closing without a position closes
      the peeked item, and once none is open there is nothing to peek. */
  method PeekThenClose()
  {
    var s := new Store();
    var first := Item(1, "a.md", "x", "y", Open);
    var second := Item(2, "b.md", "x", "y", Open);
    var seeded, _ := s.SeedList("todo", Decoded([first, second]));
    assert Assigned([first, second]) == [first, second];

    var p1, _ := s.PeekOpen("todo");
    var p2, _ := s.PeekOpen("todo");
    assert p1 == p2 == Ok(first);

    var k1, _ := s.CloseItem("todo", NoIndex);
    assert k1 == Ok(first.(status := Closed));
    var p3, _ := s.PeekOpen("todo");
    assert p3 == Ok(second);
    var k2, _ := s.CloseItem("todo", NoIndex);
    assert k2 == Ok(second.(status := Closed));
    var p4, _ := s.PeekOpen("todo");
    assert p4 == Err(NotFound);
    var k3, _ := s.CloseItem("todo", NoIndex);
    assert k3 == Err(NotFound);
  }

  /** Closing by position is accepted for an already closed item and refused
      outside 1..length. */
  method CloseByPosition()
  {
    var s := new Store();
    var only := Item(7, "a.md", "x", "y", Closed);
    var seeded, _ := s.SeedList("done", Decoded([only]));
    assert Assigned([only]) == [only];
    var k1, _ := s.CloseItem("done", Index(1));
    assert k1 == Ok(only);
    var k2, _ := s.CloseItem("done", Index(7));
    assert k2 == Err(BadRequest);
    var k3, _ := s.CloseItem("done", Index(0));
    assert k3 == Err(BadRequest);
  }

  /** The delay accepts 0 through 600 only, and the summary reports it. */
  method DelayBounds()
  {
    var s := new Store();
    var t1 := s.SetDelay(Some(700));
    var t2 := s.SetDelay(Some(-1));
    assert t1 == t2 == Err(BadRequest);
    var t3 := s.SetDelay(Some(0));
    assert t3 == Ok(0);
    var m := s.Meta();
    assert m.delay == 0 && m.lists == map[];
  }
}

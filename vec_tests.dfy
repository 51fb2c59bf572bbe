/** The unit tests of the vector back-end, as clients of the store: each states what the
    test asserts, or which panic the test expects, for any ids an allocator could hand out. */
module VecTests {
  import opened GenId
  import opened Outcomes
  import opened Vec

  /** A new parent reads back as VecRelation::parent(). */
  method GetChildrenForNewParent(parent: Id) returns (o: Outcome, r: Result<VecRelation>)
    ensures o == Done
    ensures r == Ok(VecRelation.Parent())
  {
    var graph := new VecRelations();
    o := graph.InsertParent(parent);
    r := graph.Index(parent);
  }

  /** Linking a child under a fresh parent gives the parent the list holding only the child. */
  method LinkChildToParent(id0: Id, id1: Id) returns (o: Outcome, r0: Result<VecRelation>, r1: Result<VecRelation>)
    requires id0 != id1
    ensures o == Done
    ensures r0 == Ok(ParentOf([id1]))
    ensures r1 == Ok(ChildOf(id0))
  {
    var graph := new VecRelations();
    o := graph.InsertParent(id0);
    o := graph.InsertChild(id1, id0);
    assert [] + [id1] == [id1];
    r0 := graph.Index(id0);
    r1 := graph.Index(id1);
  }

  /** A child cannot become the parent of another child: the first two steps succeed and the
      third panics at the depth-one check. */
  method LinkChildToAnotherChild(id0: Id, id1: Id, id2: Id) returns (o0: Outcome, o1: Outcome, o: Outcome)
    requires id0 != id1 && id1 != id2 && id0 != id2
    ensures o0 == Done && o1 == Done
    ensures o == Panic(NotAParent)
  {
    var graph := new VecRelations();
    o0 := graph.InsertParent(id0);
    o1 := graph.InsertChild(id1, id0);
    o := graph.InsertChild(id2, id1);
  }

  /** A second insert_parent on one id panics. */
  method InsertParentOvertopOfAnotherLink(id0: Id) returns (o: Outcome)
    ensures o == Panic(Occupied)
  {
    var graph := new VecRelations();
    o := graph.InsertParent(id0);
    o := graph.InsertParent(id0);
  }

  /** A parent cannot be linked as a child; the panic comes after the child was pushed onto the parent's list. */
  method InsertChildOvertopOfAnotherParent(id0: Id, id1: Id) returns (o: Outcome, r0: Result<VecRelation>)
    requires id0 != id1
    ensures o == Panic(Occupied)
    ensures r0 == Ok(ParentOf([id1]))
  {
    var graph := new VecRelations();
    o := graph.InsertParent(id0);
    o := graph.InsertParent(id1);
    o := graph.InsertChild(id1, id0);
    assert [] + [id1] == [id1];
    r0 := graph.Index(id0);
  }
}

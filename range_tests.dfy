/** The unit tests of the compact-range back-end, as clients of the store: each states what the
    test asserts, or which panic the test expects, for any ids an allocator could hand out. */
module RangeTests {
  import opened GenId
  import opened Outcomes
  import opened Range

  /** A new parent reads back as RangeRelation::parent(). */
  method GetChildrenForNewParent(parent: Id) returns (o: Outcome, r: Result<RangeRelation>)
    ensures o == Done
    ensures r == Ok(RangeRelation.Parent())
  {
    var graph := new RangeRelations();
    o := graph.InsertParent(parent);
    r := graph.Index(parent);
  }

  /** Linking a child under a fresh parent gives the parent the singleton range of the child. */
  method LinkChildToParent(id0: Id, id1: Id) returns (o: Outcome, r0: Result<RangeRelation>, r1: Result<RangeRelation>)
    requires id0 != id1
    ensures o == Done
    ensures r0 == Ok(ParentOf(From(id1)))
    ensures r1 == Ok(ChildOf(id0))
  {
    var graph := new RangeRelations();
    o := graph.InsertParent(id0);
    o := graph.InsertChild(id1, id0);
    r0 := graph.Index(id0);
    r1 := graph.Index(id1);
  }

  /** A child cannot become the parent of another child: the first two steps succeed and the
      third panics at the depth-one check. */
  method LinkChildToAnotherChild(id0: Id, id1: Id, id2: Id) returns (o0: Outcome, o1: Outcome, o: Outcome)
    requires id0 != id1 && id1 != id2 && id0 != id2
    ensures o0 == Done && o1 == Done
    ensures o == Panic(NotAParent)
  {
    var graph := new RangeRelations();
    o0 := graph.InsertParent(id0);
    o1 := graph.InsertChild(id1, id0);
    o := graph.InsertChild(id2, id1);
  }

  /** A second insert_parent on one id panics. */
  method InsertParentOvertopOfAnotherLink(id0: Id) returns (o: Outcome)
    ensures o == Panic(Occupied)
  {
    var graph := new RangeRelations();
    o := graph.InsertParent(id0);
    o := graph.InsertParent(id0);
  }

  /** A parent cannot be linked as a child; the panic comes after the parent's range grew. */
  method InsertChildOvertopOfAnotherParent(id0: Id, id1: Id) returns (o: Outcome, r0: Result<RangeRelation>)
    requires id0 != id1
    ensures o == Panic(Occupied)
    ensures r0 == Ok(ParentOf(From(id1)))
  {
    var graph := new RangeRelations();
    o := graph.InsertParent(id0);
    o := graph.InsertParent(id1);
    o := graph.InsertChild(id1, id0);
    r0 := graph.Index(id0);
  }
}

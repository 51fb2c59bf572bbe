/** The vector back-end: each parent keeps its children in an insertion-ordered list. */
module Vec {
  import opened GenId
  import opened Outcomes

  /** The relation of one entity: the child of one parent, or the parent of a list of children. */
  datatype VecRelation = ChildOf(parent: Id) | ParentOf(children: seq<Id>)
  {
    /** PartialEq::eq: equal tags with equal payloads; a ChildOf never equals a ParentOf. */
    function Equals(other: VecRelation): (r: bool)
      ensures r <==> this == other
    {
      match (this, other)
      case (ChildOf(lhs), ChildOf(rhs)) => lhs == rhs
      case (ParentOf(lhs), ParentOf(rhs)) => lhs == rhs
      case _ => false
    }

    /** VecRelation::parent(): a parent that has no children yet. */
    static function Parent(): (r: VecRelation)
      ensures r.IsParent()
      ensures r.AsParentOf() == Some([])
    {
      ParentOf([])
    }

    /** parent_of: the children, exactly when this is a ParentOf. */
    function AsParentOf(): (r: Option<seq<Id>>)
      ensures r.Some? <==> ParentOf?
      ensures r.Some? ==> this == ParentOf(r.value)
    {
      match this
      case ParentOf(c) => Some(c)
      case ChildOf(_) => None
    }

    /** child_of: the parent, exactly when this is a ChildOf. */
    function AsChildOf(): (r: Option<Id>)
      ensures r.Some? <==> ChildOf?
      ensures r.Some? ==> this == ChildOf(r.value)
    {
      match this
      case ChildOf(p) => Some(p)
      case ParentOf(_) => None
    }

    /** is_parent: the tag test, in agreement with parent_of. */
    function IsParent(): (r: bool)
      ensures r <==> AsParentOf().Some?
    {
      ParentOf?
    }

    /** is_child: the negation of is_parent, in agreement with child_of. */
    function IsChild(): (r: bool)
      ensures r <==> AsChildOf().Some?
    {
      !IsParent()
    }
  }

  /** Every relation value is exactly one of a parent and a child. */
  lemma ExactlyOneRole(rel: VecRelation)
    ensures rel.IsChild() == !rel.IsParent()
    ensures rel.IsParent() || rel.IsChild()
  {
  }

  /** The entry of `k` is ChildOf(p), and p is a parent whose list holds `k`. */
  ghost predicate ChildLinked(m: map<Id, VecRelation>, k: Id)
    requires k in m && m[k].ChildOf?
  {
    var p := m[k].parent;
    p in m && m[p].ParentOf? && k in m[p].children
  }

  /** The entry of `k` is a ParentOf whose children are distinct and each hold ChildOf(k). */
  ghost predicate ParentLinked(m: map<Id, VecRelation>, k: Id)
    requires k in m && m[k].ParentOf?
  {
    var kids := m[k].children;
    (forall c | c in kids :: c in m && m[c] == ChildOf(k))
    && (forall i, j | 0 <= i < j < |kids| :: kids[i] != kids[j])
  }

  /** The graph invariant of the store: a forest of depth one whose two directions agree. */
  ghost predicate Linked(m: map<Id, VecRelation>)
  {
    forall k | k in m :: if m[k].ChildOf? then ChildLinked(m, k) else ParentLinked(m, k)
  }

  /** No entry of `before` is removed from `after` or changes its role. */
  ghost predicate RolesKept(before: map<Id, VecRelation>, after: map<Id, VecRelation>)
  {
    forall k | k in before :: k in after && after[k].IsParent() == before[k].IsParent()
  }

  /** Storing an empty parent at an absent id keeps the graph invariant. */
  lemma InsertParentKeepsLinked(m: map<Id, VecRelation>, id: Id)
    requires Linked(m) && id !in m
    ensures Linked(m[id := VecRelation.Parent()])
  {
    var m' := m[id := VecRelation.Parent()];
    forall k | k in m'
      ensures if m'[k].ChildOf? then ChildLinked(m', k) else ParentLinked(m', k)
    {
      if k != id {
        if m[k].ChildOf? {
          assert ChildLinked(m, k);
        } else {
          assert ParentLinked(m, k);
        }
      }
    }
  }

  /** A successful insert_child (the child was absent, the parent holds a ParentOf) keeps the
      graph invariant. */
  lemma InsertChildKeepsLinked(m: map<Id, VecRelation>, id: Id, parent: Id)
    requires Linked(m)
    requires parent in m && m[parent].ParentOf? && id !in m
    ensures Linked(m[parent := ParentOf(m[parent].children + [id])][id := ChildOf(parent)])
  {
    var kids := m[parent].children;
    var m' := m[parent := ParentOf(kids + [id])][id := ChildOf(parent)];
    assert ParentLinked(m, parent);
    forall k | k in m'
      ensures if m'[k].ChildOf? then ChildLinked(m', k) else ParentLinked(m', k)
    {
      if k == parent {
        forall c | c in kids + [id] ensures c in m' && m'[c] == ChildOf(parent) {
          if c != id {
            assert m[c] == ChildOf(parent);
          }
        }
      } else if k != id {
        if m[k].ChildOf? {
          assert ChildLinked(m, k);
        } else {
          assert ParentLinked(m, k);
          forall c | c in m[k].children ensures c in m' && m'[c] == ChildOf(k) {
            assert m[c] == ChildOf(k);
          }
        }
      }
    }
  }

  /** The state insert_child leaves behind when its child already holds a relation (the child
      has already been pushed onto the parent's list) never satisfies the graph invariant: the
      rejected child is listed under a parent it is not the ChildOf, or is listed twice. */
  lemma RejectedChildBreaksLinked(m: map<Id, VecRelation>, id: Id, parent: Id)
    requires Linked(m)
    requires parent in m && m[parent].ParentOf? && id in m
    ensures !Linked(m[parent := ParentOf(m[parent].children + [id])])
  {
    var oldKids := m[parent].children;
    var m' := m[parent := ParentOf(oldKids + [id])];
    var kids := oldKids + [id];
    assert id in kids;
    if m'[id] == ChildOf(parent) {
      assert m[id] == ChildOf(parent) && ChildLinked(m, id);
      var i :| 0 <= i < |oldKids| && oldKids[i] == id;
      assert kids[i] == kids[|kids| - 1];
    }
    assert !ParentLinked(m', parent);
  }

  /** The store: one relation per entity id that has been inserted. */
  class VecRelations {
    var values: map<Id, VecRelation>

    /** VecRelations::default(): the empty store. */
    constructor ()
      ensures values == map[]
      ensures Linked(values)
    {
      values := map[];
    }

    /** insert_if_empty: stores `relation` at `id` unless `id` already holds one. */
    method InsertIfEmpty(id: Id, relation: VecRelation) returns (o: Outcome)
      modifies this
      ensures o == if id in old(values) then Panic(Occupied) else Done
      ensures values == if o.Done? then old(values)[id := relation] else old(values)
    {
      if id in values {
        o := Panic(Occupied);
      } else {
        values := values[id := relation];
        o := Done;
      }
    }

    /** insert_parent: makes an absent id a parent with no children. */
    method InsertParent(id: Id) returns (o: Outcome)
      modifies this
      ensures o == if id in old(values) then Panic(Occupied) else Done
      ensures values == if o.Done? then old(values)[id := VecRelation.Parent()] else old(values)
      ensures RolesKept(old(values), values)
      ensures o.Done? ==> id !in old(values) && values.Keys == old(values).Keys + {id}
      ensures Linked(old(values)) ==> Linked(values)
    {
      o := InsertIfEmpty(id, VecRelation.Parent());
      if o.Done? && Linked(old(values)) {
        InsertParentKeepsLinked(old(values), id);
      }
    }

    /** insert_child: pushes `id` onto the list of `parent`, then makes `id` its ChildOf.
        Indexing a missing parent panics, a parent holding ChildOf panics, and an `id` that
        already holds a relation panics after it has been pushed onto the parent's list. */
    method InsertChild(id: Id, parent: Id) returns (o: Outcome)
      modifies this
      ensures parent !in old(values) ==> o == Panic(NoEntry) && values == old(values)
      ensures parent in old(values) && old(values)[parent].ChildOf? ==>
                o == Panic(NotAParent) && values == old(values)
      ensures parent in old(values) && old(values)[parent].ParentOf? ==>
                var pushed := old(values)[parent := ParentOf(old(values)[parent].children + [id])];
                if id in old(values) then o == Panic(Occupied) && values == pushed
                else o == Done && values == pushed[id := ChildOf(parent)]
      ensures RolesKept(old(values), values)
      ensures o.Done? ==> id !in old(values) && values.Keys == old(values).Keys + {id}
      ensures Linked(old(values)) && o.Done? ==> Linked(values)
      ensures Linked(old(values)) && o == Panic(Occupied) ==> !Linked(values)
    {
      if parent !in values {
        return Panic(NoEntry);
      }
      match values[parent] {
        case ParentOf(children) =>
          values := values[parent := ParentOf(children + [id])];
        case ChildOf(_) =>
          return Panic(NotAParent);
      }
      o := InsertIfEmpty(id, ChildOf(parent));
      if Linked(old(values)) {
        if o.Done? {
          InsertChildKeepsLinked(old(values), id, parent);
        } else {
          RejectedChildBreaksLinked(old(values), id, parent);
        }
      }
    }

    /** Index::index: the relation stored at `id`; indexing an id with no entry panics. */
    function Index(id: Id): (r: Result<VecRelation>)
      reads this
      ensures r.Ok? <==> id in values
      ensures r.Ok? ==> r.value == values[id]
      ensures r.Err? ==> r.violation == NoEntry
    {
      if id in values then Ok(values[id]) else Err(NoEntry)
    }
  }
}

/** The compact-range back-end: each parent keeps its children as an IdRange. */
module Range {
  import opened GenId
  import opened Outcomes

  /** The relation of one entity: the child of one parent, or the parent of a range of children. */
  datatype RangeRelation = ChildOf(parent: Id) | ParentOf(children: IdRange)
  {
    /** RangeRelation::parent(): a parent that has no children yet. */
    static function Parent(): (r: RangeRelation)
      ensures r.IsParent()
      ensures r.AsParentOf() == Some(Default())
      ensures Appended(r.children) == []
    {
      ParentOf(Default())
    }

    /** parent_of: the children, exactly when this is a ParentOf. */
    function AsParentOf(): (r: Option<IdRange>)
      ensures r.Some? <==> ParentOf?
      ensures r.Some? ==> this == ParentOf(r.value)
    {
      match this
      case ParentOf(c) => Some(c)
      case ChildOf(_) => None
    }

    /** child_of: the parent, exactly when this is a ChildOf. */
    function AsChildOf(): (r: Option<Id>)
      ensures r.Some? <==> ChildOf?
      ensures r.Some? ==> this == ChildOf(r.value)
    {
      match this
      case ChildOf(p) => Some(p)
      case ParentOf(_) => None
    }

    /** is_parent: the tag test, in agreement with parent_of. */
    function IsParent(): (r: bool)
      ensures r <==> AsParentOf().Some?
    {
      ParentOf?
    }

    /** is_child: the negation of is_parent, in agreement with child_of. */
    function IsChild(): (r: bool)
      ensures r <==> AsChildOf().Some?
    {
      !IsParent()
    }
  }

  /** Every relation value is exactly one of a parent and a child. */
  lemma ExactlyOneRole(rel: RangeRelation)
    ensures rel.IsChild() == !rel.IsParent()
    ensures rel.IsParent() || rel.IsChild()
  {
  }

  /** The entry of `k` is ChildOf(p), and p is a parent whose range lists `k`. */
  ghost predicate ChildLinked(m: map<Id, RangeRelation>, k: Id)
    requires k in m && m[k].ChildOf?
  {
    var p := m[k].parent;
    p in m && m[p].ParentOf? && k in Appended(m[p].children)
  }

  /** The entry of `k` is a ParentOf whose appended ids are distinct and each hold ChildOf(k). */
  ghost predicate ParentLinked(m: map<Id, RangeRelation>, k: Id)
    requires k in m && m[k].ParentOf?
  {
    var kids := Appended(m[k].children);
    (forall c | c in kids :: c in m && m[c] == ChildOf(k))
    && (forall i, j | 0 <= i < j < |kids| :: kids[i] != kids[j])
  }

  /** The graph invariant of the store: a forest of depth one whose two directions agree. */
  ghost predicate Linked(m: map<Id, RangeRelation>)
  {
    forall k | k in m :: if m[k].ChildOf? then ChildLinked(m, k) else ParentLinked(m, k)
  }

  /** No entry of `before` is removed from `after` or changes its role. */
  ghost predicate RolesKept(before: map<Id, RangeRelation>, after: map<Id, RangeRelation>)
  {
    forall k | k in before :: k in after && after[k].IsParent() == before[k].IsParent()
  }

  /** Storing an empty parent at an absent id keeps the graph invariant. */
  lemma InsertParentKeepsLinked(m: map<Id, RangeRelation>, id: Id)
    requires Linked(m) && id !in m
    ensures Linked(m[id := RangeRelation.Parent()])
  {
    var m' := m[id := RangeRelation.Parent()];
    forall k | k in m'
      ensures if m'[k].ChildOf? then ChildLinked(m', k) else ParentLinked(m', k)
    {
      if k != id {
        if m[k].ChildOf? {
          assert ChildLinked(m, k);
        } else {
          assert ParentLinked(m, k);
        }
      }
    }
  }

  /** A successful insert_child (the child was absent, the parent holds a ParentOf) keeps the
      graph invariant. */
  lemma InsertChildKeepsLinked(m: map<Id, RangeRelation>, id: Id, parent: Id)
    requires Linked(m)
    requires parent in m && m[parent].ParentOf? && id !in m
    ensures Linked(m[parent := ParentOf(Append(m[parent].children, id))][id := ChildOf(parent)])
  {
    var grown := Append(m[parent].children, id);
    var m' := m[parent := ParentOf(grown)][id := ChildOf(parent)];
    assert ParentLinked(m, parent);
    forall k | k in m'
      ensures if m'[k].ChildOf? then ChildLinked(m', k) else ParentLinked(m', k)
    {
      if k == id {
        assert id in Appended(grown);
      } else if k == parent {
        var kids := Appended(m[parent].children);
        forall c | c in kids + [id] ensures c in m' && m'[c] == ChildOf(parent) {
          if c != id {
            assert m[c] == ChildOf(parent);
          }
        }
      } else if m[k].ChildOf? {
        assert ChildLinked(m, k);
      } else {
        assert ParentLinked(m, k);
        forall c | c in Appended(m[k].children) ensures c in m' && m'[c] == ChildOf(k) {
          assert m[c] == ChildOf(k);
        }
      }
    }
  }

  /** The state insert_child leaves behind when its child already holds a relation (the parent's
      range has already been extended) never satisfies the graph invariant: the rejected child
      is listed under a parent it is not the ChildOf, or is listed twice. */
  lemma RejectedChildBreaksLinked(m: map<Id, RangeRelation>, id: Id, parent: Id)
    requires Linked(m)
    requires parent in m && m[parent].ParentOf? && id in m
    ensures !Linked(m[parent := ParentOf(Append(m[parent].children, id))])
  {
    var old_kids := Appended(m[parent].children);
    var m' := m[parent := ParentOf(Append(m[parent].children, id))];
    var kids := old_kids + [id];
    assert Appended(m'[parent].children) == kids;
    assert id in kids;
    if m'[id] == ChildOf(parent) {
      assert m[id] == ChildOf(parent) && ChildLinked(m, id);
      var i :| 0 <= i < |old_kids| && old_kids[i] == id;
      assert kids[i] == kids[|kids| - 1];
    }
    assert !ParentLinked(m', parent);
  }

  /** `a` is `b` with some elements left out, the rest in their order. */
  ghost predicate IsSubsequence(a: seq<Id>, b: seq<Id>)
    decreases |b|
  {
    a == [] || (b != [] && ((a[0] == b[0] && IsSubsequence(a[1..], b[1..])) || IsSubsequence(a, b[1..])))
  }

  /** The store: one relation per entity id that has been inserted. */
  class RangeRelations {
    var values: map<Id, RangeRelation>

    /** RangeRelations::default(): the empty store. */
    constructor ()
      ensures values == map[]
      ensures Linked(values)
    {
      values := map[];
    }

    /** insert_if_empty: stores `relation` at `id` unless `id` already holds one. */
    method InsertIfEmpty(id: Id, relation: RangeRelation) returns (o: Outcome)
      modifies this
      ensures o == if id in old(values) then Panic(Occupied) else Done
      ensures values == if o.Done? then old(values)[id := relation] else old(values)
    {
      if id in values {
        o := Panic(Occupied);
      } else {
        values := values[id := relation];
        o := Done;
      }
    }

    /** insert_parent: makes an absent id a parent with no children. */
    method InsertParent(id: Id) returns (o: Outcome)
      modifies this
      ensures o == if id in old(values) then Panic(Occupied) else Done
      ensures values == if o.Done? then old(values)[id := RangeRelation.Parent()] else old(values)
      ensures RolesKept(old(values), values)
      ensures o.Done? ==> id !in old(values) && values.Keys == old(values).Keys + {id}
      ensures Linked(old(values)) ==> Linked(values)
    {
      o := InsertIfEmpty(id, RangeRelation.Parent());
      if o.Done? && Linked(old(values)) {
        InsertParentKeepsLinked(old(values), id);
      }
    }

    /** insert_child: appends `id` to the range of `parent`, then makes `id` its ChildOf.
        Indexing a missing parent panics, a parent holding ChildOf panics, and an `id` that
        already holds a relation panics after the parent's range has been extended. */
    method InsertChild(id: Id, parent: Id) returns (o: Outcome)
      modifies this
      ensures parent !in old(values) ==> o == Panic(NoEntry) && values == old(values)
      ensures parent in old(values) && old(values)[parent].ChildOf? ==>
                o == Panic(NotAParent) && values == old(values)
      ensures parent in old(values) && old(values)[parent].ParentOf? ==>
                var extended := old(values)[parent := ParentOf(Append(old(values)[parent].children, id))];
                if id in old(values) then o == Panic(Occupied) && values == extended
                else o == Done && values == extended[id := ChildOf(parent)]
      ensures RolesKept(old(values), values)
      ensures o.Done? ==> id !in old(values) && values.Keys == old(values).Keys + {id}
      ensures Linked(old(values)) && o.Done? ==> Linked(values)
      ensures Linked(old(values)) && o == Panic(Occupied) ==> !Linked(values)
    {
      if parent !in values {
        return Panic(NoEntry);
      }
      match values[parent] {
        case ParentOf(children) =>
          values := values[parent := ParentOf(Append(children, id))];
        case ChildOf(_) =>
          return Panic(NotAParent);
      }
      o := InsertIfEmpty(id, ChildOf(parent));
      if Linked(old(values)) {
        if o.Done? {
          InsertChildKeepsLinked(old(values), id, parent);
        } else {
          RejectedChildBreaksLinked(old(values), id, parent);
        }
      }
    }

    /** Index::index: the relation stored at `id`; indexing an id with no entry panics. */
    function Index(id: Id): (r: Result<RangeRelation>)
      reads this
      ensures r.Ok? <==> id in values
      ensures r.Ok? ==> r.value == values[id]
      ensures r.Err? ==> r.violation == NoEntry
    {
      if id in values then Ok(values[id]) else Err(NoEntry)
    }

    /** parents: the ids of `ids` that hold a ParentOf, in input order. Every id is indexed,
        so the query panics when some id of `ids` holds no relation. */
    function Parents(ids: seq<Id>): (r: Result<seq<Id>>)
      reads this
      ensures r.Ok? <==> forall i | 0 <= i < |ids| :: ids[i] in values
      ensures r.Err? ==> r.violation == NoEntry
      ensures r.Ok? ==> IsSubsequence(r.value, ids)
      ensures r.Ok? ==> forall x | x in ids ::
                multiset(r.value)[x] == if values[x].ParentOf? then multiset(ids)[x] else 0
      ensures r.Ok? ==> forall x | x in r.value :: x in ids
    {
      if ids == [] then Ok([])
      else if ids[0] !in values then Err(NoEntry)
      else
        var rest := Parents(ids[1..]);
        if rest.Err? then rest
        else
          assert ids == [ids[0]] + ids[1..];
          if values[ids[0]].ParentOf? then Ok([ids[0]] + rest.value) else rest
    }
  }
}

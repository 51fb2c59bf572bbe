# gen_id_relations in Dafny

A model of `gen_id_relations`, a Rust crate that stores one-level parent/child relations
between generational entity ids. Every entity in a store is either a parent, owning a
collection of children, or a child, naming exactly one parent; a child cannot be a parent
and no entry is ever removed. The crate has two parallel back-ends with the same insertion
protocol:

- `RangeRelations` (src/range.rs): a parent keeps its children as a gen_id `IdRange`;
  the store also answers `parents(ids)`, the parent ids of a sequence.
- `VecRelations` (src/vec.rs): a parent keeps its children in an insertion-ordered `Vec`,
  and the relation value has a hand-written structural `PartialEq`.

Files:

- `outcomes.dfy` (module `Outcomes`): `Violation`, `Outcome`, `Option`, `Result`. Each panic
  of the crate becomes `Panic(v)` or `Err(v)`, where `v` names the failed check:
  `Occupied` (insert over an existing entry), `NotAParent` (insert a child under a `ChildOf`)
  or `NoEntry` (index an id with no entry).
- `gen_id.dfy` (module `GenId`): `Id` (slot index and generation, structural equality) and an
  abstract `IdRange`. The model keeps only the ids appended to a range since the default
  (empty) range, oldest first (`Appended`). `From(id)` is by definition the default range with
  `id` appended, which is the one fact the crate's test fixes (src/range.rs:151).
- `range.dfy` (module `Range`), `vec.dfy` (module `Vec`): the relation datatype, the graph
  invariant `Linked`, its preservation lemmas, and the store as a class whose `values: map`
  field the insert methods update in place.
- `range_tests.dfy`, `vec_tests.dfy`: the crate's unit tests as client methods. Each one
  proves, for any distinct ids, the outcome or lookup that the test asserts or the panic
  that the test expects.

The graph invariant `Linked(m)` says three things. Every `ChildOf(p)` entry names a `p`
holding a `ParentOf` that lists the child. Every id listed by a `ParentOf` at `k` holds
`ChildOf(k)`. A parent lists no id twice. The empty store satisfies it. A successful
`insert_parent` or `insert_child` preserves it. For the compact-range back-end this rests on
the model's `IdRange` listing every appended id; the crate's range takes in only the next
slot after its end, so the model's outcome for a non-contiguous child is not the crate's
(see "## Left out"). The vector back-end always records the pushed id. The insert methods also keep every existing
key with its role (`RolesKept`), and each success adds exactly the inserted id as a new key.

`insert_child` pushes the child onto the parent's collection before it checks that the child
has no entry. The model keeps that order. On an `Occupied` panic the state it states is the
old store with the parent's collection extended, and `RejectedChildBreaksLinked` proves that
such a state never satisfies `Linked` (for the compact-range back-end, over the model's
append history; see "## Left out"). Indexing a missing parent and finding a `ChildOf`
parent both panic before anything changes.

## Model

| member | source | states |
|---|---|---|
| GenId.Default | src/range.rs:13 | the default range has had no id appended |
| GenId.Append | src/range.rs:76 | appending adds exactly `id` at the end of the appended ids |
| GenId.From | src/range.rs:151 | `IdRange::from(id)` holds exactly `id` |
| GenId.AppendToDefaultIsFrom | src/range.rs:151 | appending `id` to the default range gives `From(id)` |
| Range.RangeRelation.Parent | src/range.rs:11-14 | `parent()` is a parent whose `parent_of` is the default range, with nothing appended |
| Range.RangeRelation.AsParentOf | src/range.rs:16-22 | `parent_of` is `Some(c)` exactly for `ParentOf(c)`, `None` for a `ChildOf` |
| Range.RangeRelation.AsChildOf | src/range.rs:24-30 | `child_of` is `Some(p)` exactly for `ChildOf(p)`, `None` for a `ParentOf` |
| Range.RangeRelation.IsParent | src/range.rs:32-35 | `is_parent` holds exactly when `parent_of` is `Some` |
| Range.RangeRelation.IsChild | src/range.rs:37-40 | `is_child` holds exactly when `child_of` is `Some` |
| Range.ExactlyOneRole | src/range.rs:32-40 | `is_child` is the negation of `is_parent`; every value is one of the two |
| Range.InsertParentKeepsLinked | src/range.rs:62-66 | storing an empty parent at an absent id preserves the graph invariant |
| Range.InsertChildKeepsLinked | src/range.rs:68-82 | appending an absent child to a parent's range and storing `ChildOf(parent)` preserves the graph invariant |
| Range.RejectedChildBreaksLinked | src/range.rs:75-81 | the state left when the child already has an entry (range extended, child not stored) never satisfies the graph invariant |
| Range.RangeRelations.constructor | src/range.rs:43-46 | the default store is empty and satisfies the graph invariant |
| Range.RangeRelations.InsertIfEmpty | src/range.rs:52-60 | stores the relation exactly when the id has no entry; otherwise panics `Occupied` with nothing changed |
| Range.RangeRelations.InsertParent | src/range.rs:62-66 | an absent id becomes `parent()`; an occupied id panics `Occupied` with nothing changed; the invariant, keys and roles are kept and one key is added |
| Range.RangeRelations.InsertChild | src/range.rs:68-82 | missing parent panics `NoEntry`, `ChildOf` parent panics `NotAParent`, both with nothing changed; otherwise the parent's range gets `id` appended, then the child is stored as `ChildOf(parent)`, or it panics `Occupied` with the extended range kept; invariant kept on success and broken on the `Occupied` panic |
| Range.RangeRelations.Index | src/range.rs:94-101 | the stored relation for an id with an entry; panics `NoEntry` exactly when there is none |
| Range.RangeRelations.Parents | src/range.rs:84-91 | panics `NoEntry` exactly when some input id has no entry; otherwise a subsequence of the input that holds every `ParentOf` id as often as the input does and no other id |
| RangeTests.GetChildrenForNewParent | src/range.rs:129-138 | after `insert_parent(p)`, `graph[p] == parent()` |
| RangeTests.LinkChildToParent | src/range.rs:140-153 | after `insert_parent(id0)` and `insert_child(id1, id0)`, `graph[id0]` is `ParentOf(IdRange::from(id1))` and `graph[id1]` is `ChildOf(id0)` |
| RangeTests.LinkChildToAnotherChild | src/range.rs:155-168 | the parent and child inserts succeed, then linking under the child panics `NotAParent` |
| RangeTests.InsertParentOvertopOfAnotherLink | src/range.rs:170-180 | a second `insert_parent` on an id panics `Occupied` |
| RangeTests.InsertChildOvertopOfAnotherParent | src/range.rs:182-194 | linking a parent as a child panics `Occupied`, after the other parent's range already holds it |
| Vec.VecRelation.Equals | src/vec.rs:9-18 | `eq` holds exactly for equal tags with equal payloads, so a `ChildOf` never equals a `ParentOf` |
| Vec.VecRelation.Parent | src/vec.rs:23-26 | `parent()` is a parent whose `parent_of` is the empty list |
| Vec.VecRelation.AsParentOf | src/vec.rs:28-34 | `parent_of` is `Some(c)` exactly for `ParentOf(c)`, `None` for a `ChildOf` |
| Vec.VecRelation.AsChildOf | src/vec.rs:36-42 | `child_of` is `Some(p)` exactly for `ChildOf(p)`, `None` for a `ParentOf` |
| Vec.VecRelation.IsParent | src/vec.rs:44-47 | `is_parent` holds exactly when `parent_of` is `Some` |
| Vec.VecRelation.IsChild | src/vec.rs:49-52 | `is_child` holds exactly when `child_of` is `Some` |
| Vec.ExactlyOneRole | src/vec.rs:44-52 | `is_child` is the negation of `is_parent`; every value is one of the two |
| Vec.InsertParentKeepsLinked | src/vec.rs:73-76 | storing an empty parent at an absent id preserves the graph invariant |
| Vec.InsertChildKeepsLinked | src/vec.rs:78-91 | pushing an absent child onto a parent's list and storing `ChildOf(parent)` preserves the graph invariant |
| Vec.RejectedChildBreaksLinked | src/vec.rs:84-90 | the state left when the child already has an entry (child pushed, not stored) never satisfies the graph invariant |
| Vec.VecRelations.constructor | src/vec.rs:55-58 | the default store is empty and satisfies the graph invariant |
| Vec.VecRelations.InsertIfEmpty | src/vec.rs:63-71 | stores the relation exactly when the id has no entry; otherwise panics `Occupied` with nothing changed |
| Vec.VecRelations.InsertParent | src/vec.rs:73-76 | an absent id becomes `ParentOf([])`; an occupied id panics `Occupied` with nothing changed; the invariant, keys and roles are kept and one key is added |
| Vec.VecRelations.InsertChild | src/vec.rs:78-91 | missing parent panics `NoEntry`, `ChildOf` parent panics `NotAParent`, both with nothing changed; otherwise `id` is pushed at the end of the parent's list, then the child is stored as `ChildOf(parent)`, or it panics `Occupied` with the pushed list kept; invariant kept on success and broken on the `Occupied` panic |
| Vec.VecRelations.Index | src/vec.rs:94-101 | the stored relation for an id with an entry; panics `NoEntry` exactly when there is none |
| VecTests.GetChildrenForNewParent | src/vec.rs:130-138 | after `insert_parent(p)`, `graph[p] == parent()` |
| VecTests.LinkChildToParent | src/vec.rs:140-152 | after `insert_parent(id0)` and `insert_child(id1, id0)`, `graph[id0]` is `ParentOf([id1])` and `graph[id1]` is `ChildOf(id0)` |
| VecTests.LinkChildToAnotherChild | src/vec.rs:154-166 | the parent and child inserts succeed, then linking under the child panics `NotAParent` |
| VecTests.InsertParentOvertopOfAnotherLink | src/vec.rs:168-177 | a second `insert_parent` on an id panics `Occupied` |
| VecTests.InsertChildOvertopOfAnotherParent | src/vec.rs:179-190 | linking a parent as a child panics `Occupied`, after the other parent's list already holds it |

## Left out

- src/lib.rs: imports and re-exports only.
- The `IntoIterator` impls (src/range.rs:104-111, src/vec.rs:103-110): they hand out the backing store's values in its own order, which is part of gen_id and not of this model.
- The `ContextualIterator` impls and the arena/`Entity`/`Fixed` type parameters: they separate id spaces at compile time and do nothing at run time, so the model has one id space.
- The backing `RawComponent` store: the model keys the map by the whole `Id`, while gen_id keys by slot. The two agree when slots are never reused, which `RangeRelations` demands through its `Fixed` bound. For `VecRelations`, which has no such bound, the model does not capture two generations of one slot sharing an entry.
- `IdRange` internals: the model records every append, contiguous or not, as the next entry of the range's append history. How gen_id actually stores a range, merges contiguous ids, or treats an append that is not contiguous (an id it already holds, say) is not captured. Two ranges are equal in the model only when the same ids were appended in the same order.
- Range.RejectedChildBreaksLinked: in the case where the rejected child already holds `ChildOf(parent)` under that same parent, the conclusion rests on the model recording the repeated append a second time, so the range lists the child twice. If gen_id ignored an id the range already holds, that re-link state would still satisfy `Linked`. For every other rejected child (one holding `ChildOf` of another parent, a `ParentOf`, or the parent itself) the child is listed under a parent it is not the child of, whatever the range does with repeats.
- Range.InsertChildKeepsLinked: the success-path preservation holds for a child the range actually takes in, which in the crate is the next slot after the range's end. The model's range lists every appended id, so it proves the same for any absent child. For a non-contiguous child the crate's range may panic or may not list the child; neither outcome is modelled.
- Range.RangeRelations.InsertChild: its `Done` clause for every absent child under a `ParentOf`, and its clause that success keeps `Linked`, rest on the model's range taking in every appended id, with the limit stated for `Range.InsertChildKeepsLinked`; a non-contiguous append has no panic path here. Its clause that an `Occupied` panic leaves a state that breaks `Linked` rests on `Range.RejectedChildBreaksLinked`, with the limit stated there for a child re-linked under its own parent.
- Range.RangeRelations.Parents: the crate's result is a lazy iterator. The model gives the whole filtered sequence, or `NoEntry` when any input id has no entry. It does not model the parent ids yielded before the panic.
- Panic messages, `type_name`, `#[track_caller]`, `#[inline]`, the derive macros, and id allocation (`RangeAllocator`, `fixed_id!`, `Id::first`): the tests' ids are parameters, required to be distinct as an allocator would make them.

/** The parts of the gen_id crate that the relation stores rely on. */
module GenId {

  /** A generational id: a slot index and the generation of that slot.
      Equality is structural, so a stale id for a reused slot differs from the live one. */
  datatype Id = Id(index: nat, generation: nat)

  /** A compact range of child ids, kept abstract. The model records the ids appended to a
      range, in order, since the default (empty) range, and fixes nothing about how the crate
      stores or merges them. */
  datatype IdRange = Start | Then(prior: IdRange, last: Id)

  /** The ids appended to `r` since the default range, oldest first. */
  function Appended(r: IdRange): seq<Id>
  {
    match r
    case Start => []
    case Then(prior, last) => Appended(prior) + [last]
  }

  /** IdRange::default(): the range nothing has been appended to. */
  function Default(): (r: IdRange)
    ensures Appended(r) == []
  {
    Start
  }

  /** IdRange::append: adds one id at the end of the range. */
  function Append(r: IdRange, id: Id): (r': IdRange)
    ensures Appended(r') == Appended(r) + [id]
  {
    Then(r, id)
  }

  /** IdRange::from(id): the range holding `id` alone. */
  function From(id: Id): (r: IdRange)
    ensures Appended(r) == [id]
  {
    Append(Default(), id)
  }

  /** Appending an id to the default range gives the singleton range of that id. The model
      makes this true by the definition of From; the lemma records it because it is the one
      fact about IdRange that the crate's own test fixes. */
  lemma AppendToDefaultIsFrom(id: Id)
    ensures Append(Default(), id) == From(id)
  {
  }
}

/**
 * The plain set meaning of the ORM calls the membership views make on a link
 * table (favourites, cart, subscriptions): `get_or_create` or `exists()`
 * followed by `create` adds a pair unless it is already there, and
 * `get_object_or_404(...).delete()` or `filter(...).delete()` removes a pair
 * unless it is missing. Which error each view reports is a parameter.
 */
module Links {
  import opened Base

  /** A (user, recipe) or (user, author) pair. */
  type Pair = (nat, nat)

  /** A view's outcome together with the link table it leaves behind. */
  datatype Step = Step(outcome: Outcome, after: set<Pair>)

  /** Adds `x`, or fails with `present` when it is already there. */
  function Insert(links: set<Pair>, x: Pair, present: Error): (r: Step)
    ensures r.outcome == Done <==> x !in links
    ensures r.outcome.Failed? ==> r.outcome.error == present && r.after == links
    ensures r.after == links + {x}
  {
    if x in links then Step(Failed(present), links) else Step(Done, links + {x})
  }

  /** Removes `x`, or fails with `absent` when it is not there. */
  function Remove(links: set<Pair>, x: Pair, absent: Error): (r: Step)
    ensures r.outcome == Done <==> x in links
    ensures r.outcome.Failed? ==> r.outcome.error == absent
    ensures r.after == links - {x}
  {
    if x in links then Step(Done, links - {x}) else Step(Failed(absent), links)
  }

  /** A request that fails before touching the table. */
  function Refuse(links: set<Pair>, e: Error): (r: Step)
    ensures r.outcome == Failed(e) && r.after == links
  {
    Step(Failed(e), links)
  }

  /** Removing a pair just added restores the table, and both requests succeed. */
  lemma RemoveUndoesInsert(links: set<Pair>, x: Pair, present: Error, absent: Error)
    requires x !in links
    ensures Insert(links, x, present).outcome == Done
    ensures Remove(Insert(links, x, present).after, x, absent) == Step(Done, links)
  {
    assert (links + {x}) - {x} == links;
  }

  /** Adding back a pair just removed restores the table, and both requests succeed. */
  lemma InsertUndoesRemove(links: set<Pair>, x: Pair, present: Error, absent: Error)
    requires x in links
    ensures Remove(links, x, absent).outcome == Done
    ensures Insert(Remove(links, x, absent).after, x, present) == Step(Done, links)
  {
    assert (links - {x}) + {x} == links;
  }

  /** Repeating an add fails with `present` and leaves the table as the first add left it. */
  lemma InsertTwice(links: set<Pair>, x: Pair, present: Error)
    ensures Insert(Insert(links, x, present).after, x, present) == Step(Failed(present), links + {x})
  {
  }

  /** Repeating a removal fails with `absent` and leaves the table as the first removal left it. */
  lemma RemoveTwice(links: set<Pair>, x: Pair, absent: Error)
    ensures Remove(Remove(links, x, absent).after, x, absent) == Step(Failed(absent), links - {x})
  {
  }
}

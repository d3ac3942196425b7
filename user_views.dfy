/**
 * The split layout's `SubscriptionViewSet.subscribe`: the self-check comes
 * first and applies to POST and DELETE alike, and an existing pair on POST or
 * a missing pair on DELETE is answered with 400. `list_subscriptions` lists
 * the authors the user follows (`Store.Followed`).
 */
module UserViews {
  import opened Base
  import Store
  import Links
  import Flags

  /** `subscribe` for an existing author. */
  function Subscription(subs: set<(UserId, UserId)>, user: UserId, author: UserId, verb: Verb): (r: Links.Step)
    ensures user == author ==> r == Links.Step(Failed(Invalid(SelfSubscription)), subs)
    ensures r.outcome == Done <==> user != author && ((verb == Post) == ((user, author) !in subs))
    ensures r.after == if r.outcome == Done then (if verb == Post then subs + {(user, author)} else subs - {(user, author)})
                       else subs
    ensures user != author && r.outcome.Failed? ==>
              r.outcome.error == Invalid(if verb == Post then AlreadySubscribed else NotSubscribed)
    ensures Store.NoSelfFollow(subs) ==> Store.NoSelfFollow(r.after)
    ensures r.outcome == Done ==> Flags.SubscribedFlag(r.after, LoggedIn(user), author) == (verb == Post)
  {
    if user == author then Links.Refuse(subs, Invalid(SelfSubscription))
    else if verb == Post then Links.Insert(subs, (user, author), Invalid(AlreadySubscribed))
    else Links.Remove(subs, (user, author), Invalid(NotSubscribed))
  }

  /**
   * The view: `get_object()` finds the author or is not found, then the table
   * changes as `Subscription` says. Although the split layout's table has no
   * check constraint, the view never stores a self-subscription.
   */
  method Subscribe(db: Store.Database, user: UserId, author: UserId, verb: Verb) returns (o: Outcome)
    requires db.Valid() && user in db.users
    modifies db
    ensures db.Valid() && db.OnlySubscriptionsChanged()
    ensures Store.NoSelfFollow(old(db.subscriptions)) ==> Store.NoSelfFollow(db.subscriptions)
    ensures author !in db.users ==> o == Failed(NotFound) && db.subscriptions == old(db.subscriptions)
    ensures author in db.users ==> Links.Step(o, db.subscriptions) == Subscription(old(db.subscriptions), user, author, verb)
  {
    if author !in db.users {
      return Failed(NotFound);
    }
    if user == author {
      return Failed(Invalid(SelfSubscription));
    }
    if verb == Post {
      if (user, author) in db.subscriptions {
        return Failed(Invalid(AlreadySubscribed));
      }
      db.subscriptions := db.subscriptions + {(user, author)};
      return Done;
    }
    if (user, author) !in db.subscriptions {
      return Failed(Invalid(NotSubscribed));
    }
    db.subscriptions := db.subscriptions - {(user, author)};
    return Done;
  }

  /** Unsubscribing undoes subscribing, and subscribing again after unsubscribing restores the table. */
  lemma SubscriptionInverse(subs: set<(UserId, UserId)>, user: UserId, author: UserId)
    requires user != author
    ensures (user, author) !in subs ==>
              Subscription(Subscription(subs, user, author, Post).after, user, author, Delete) == Links.Step(Done, subs)
    ensures (user, author) in subs ==>
              Subscription(Subscription(subs, user, author, Delete).after, user, author, Post) == Links.Step(Done, subs)
  {
    if (user, author) !in subs {
      Links.RemoveUndoesInsert(subs, (user, author), Invalid(AlreadySubscribed), Invalid(NotSubscribed));
    } else {
      Links.InsertUndoesRemove(subs, (user, author), Invalid(AlreadySubscribed), Invalid(NotSubscribed));
    }
  }
}

/**
 * The derived flags a serialized user or recipe carries: `is_subscribed`
 * (both layouts' `UserSerializer.get_is_subscribed`) and `is_favorited` /
 * `is_in_shopping_cart` (`RecipeListSerializer.get_is_*`).
 */
module Flags {
  import opened Base
  import Store

  /**
   * `get_is_subscribed`: false without a request or for an anonymous user,
   * otherwise whether the viewer follows `author`.
   */
  function SubscribedFlag(subs: set<(UserId, UserId)>, viewer: Viewer, author: UserId): (b: bool)
    ensures b <==> Store.IsSubscribed(subs, viewer, author)
    ensures b <==> viewer.LoggedIn? && author in Store.Followed(subs, viewer.id)
  {
    match viewer
    case NoRequest => false
    case Anonymous => false
    case LoggedIn(u) =>
      assert (u, author) in subs ==> author in Store.Followed(subs, u);
      (u, author) in subs
  }

  /** `get_is_favorited` over the favourite table, `get_is_in_shopping_cart` over the cart table. */
  function InList(links: set<(UserId, RecipeId)>, viewer: Viewer, recipe: RecipeId): (b: bool)
    ensures !viewer.LoggedIn? ==> !b
    ensures viewer.LoggedIn? ==> (b <==> recipe in (set p | p in links && p.0 == viewer.id :: p.1))
  {
    if viewer.LoggedIn? then
      assert (viewer.id, recipe) in links ==> recipe in (set p | p in links && p.0 == viewer.id :: p.1);
      (viewer.id, recipe) in links
    else false
  }
}

/**
 * The split layout's `FavoriteViewSet` and `ShoppingCartViewSet`: `create`
 * adds a (user, recipe) link unless it exists, `destroy` removes it, and both
 * answer 400 (not 404) when the link is already there or missing; an unknown
 * recipe id is "not found" before anything else. `download_shopping_cart`
 * writes one line per product group.
 */
module FavoritesCartViews {
  import opened Base
  import opened Text
  import Store
  import Links
  import ShoppingList

  /** `create` for an existing recipe: adds the pair, or refuses it as already listed. */
  function CreateLink(links: set<(UserId, RecipeId)>, user: UserId, recipe: RecipeId): (r: Links.Step)
    ensures r.outcome == Done <==> (user, recipe) !in links
    ensures r.outcome.Failed? ==> r.outcome == Failed(Invalid(AlreadyInList)) && r.after == links
    ensures r.after == links + {(user, recipe)}
  {
    Links.Insert(links, (user, recipe), Invalid(AlreadyInList))
  }

  /** `destroy` for an existing recipe: removes the pair, or refuses because it is not listed. */
  function DestroyLink(links: set<(UserId, RecipeId)>, user: UserId, recipe: RecipeId): (r: Links.Step)
    ensures r.outcome == Done <==> (user, recipe) in links
    ensures r.outcome.Failed? ==> r.outcome == Failed(Invalid(NotInList)) && r.after == links
    ensures r.after == links - {(user, recipe)}
  {
    Links.Remove(links, (user, recipe), Invalid(NotInList))
  }

  /** A `destroy` undoes a successful `create`, and a `create` undoes a successful `destroy`. */
  lemma CreateDestroyInverse(links: set<(UserId, RecipeId)>, user: UserId, recipe: RecipeId)
    ensures (user, recipe) !in links ==> DestroyLink(CreateLink(links, user, recipe).after, user, recipe) == Links.Step(Done, links)
    ensures (user, recipe) in links ==> CreateLink(DestroyLink(links, user, recipe).after, user, recipe) == Links.Step(Done, links)
  {
    if (user, recipe) !in links {
      Links.RemoveUndoesInsert(links, (user, recipe), Invalid(AlreadyInList), Invalid(NotInList));
    } else {
      Links.InsertUndoesRemove(links, (user, recipe), Invalid(AlreadyInList), Invalid(NotInList));
    }
  }

  /** `create` of either view set: `get_recipe()` first, then the `exists()` check, then `create`. */
  method Create(db: Store.Database, kind: ListKind, user: UserId, recipe: RecipeId) returns (o: Outcome)
    requires db.Valid() && user in db.users
    modifies db
    ensures db.Valid() && db.OnlyLinksChanged(kind)
    ensures recipe !in db.recipes ==> o == Failed(NotFound) && db.Links(kind) == old(db.Links(kind))
    ensures recipe in db.recipes ==> Links.Step(o, db.Links(kind)) == CreateLink(old(db.Links(kind)), user, recipe)
  {
    if recipe !in db.recipes {
      return Failed(NotFound);
    }
    if (user, recipe) in db.Links(kind) {
      return Failed(Invalid(AlreadyInList));
    }
    if kind == Favorites {
      db.favorites := db.favorites + {(user, recipe)};
    } else {
      db.carts := db.carts + {(user, recipe)};
    }
    return Done;
  }

  /** `destroy` of either view set: `get_recipe()` first, then `filter(...).first()`, then `delete()`. */
  method Destroy(db: Store.Database, kind: ListKind, user: UserId, recipe: RecipeId) returns (o: Outcome)
    requires db.Valid()
    modifies db
    ensures db.Valid() && db.OnlyLinksChanged(kind)
    ensures recipe !in db.recipes ==> o == Failed(NotFound) && db.Links(kind) == old(db.Links(kind))
    ensures recipe in db.recipes ==> Links.Step(o, db.Links(kind)) == DestroyLink(old(db.Links(kind)), user, recipe)
  {
    if recipe !in db.recipes {
      return Failed(NotFound);
    }
    if (user, recipe) !in db.Links(kind) {
      return Failed(Invalid(NotInList));
    }
    if kind == Favorites {
      db.favorites := db.favorites - {(user, recipe)};
    } else {
      db.carts := db.carts - {(user, recipe)};
    }
    return Done;
  }

  /** `f"{name} ({unit}) — {total_amount}"`. */
  function CartLine(e: ShoppingList.Entry): (line: string)
    ensures line != []
  {
    e.name + " (" + e.unit + ") — " + IntToString(e.total)
  }

  function CartLines(es: seq<ShoppingList.Entry>): (lines: seq<string>)
    ensures |lines| == |es|
  {
    seq(|es|, i requires 0 <= i < |es| => CartLine(es[i]))
  }

  /** `download_shopping_cart`: the aggregated product groups of the user's cart, one line each, joined by newlines. */
  function Download(rows: seq<Row>, ingredients: map<IngredientId, Ingredient>, carts: set<(UserId, RecipeId)>,
                    user: UserId): string
  {
    Join(CartLines(ShoppingList.Aggregate(ShoppingList.CartedProducts(rows, ingredients, carts, user))), "\n")
  }

  /** The body is empty exactly when the user's cart yields no product. */
  lemma DownloadEmpty(rows: seq<Row>, ingredients: map<IngredientId, Ingredient>, carts: set<(UserId, RecipeId)>,
                      user: UserId)
    ensures Download(rows, ingredients, carts, user) == [] <==> ShoppingList.CartedProducts(rows, ingredients, carts, user) == []
  {
    var ps := ShoppingList.CartedProducts(rows, ingredients, carts, user);
    ShoppingList.AggregateCorrect(ps);
    JoinEmpty(CartLines(ShoppingList.Aggregate(ps)), "\n");
  }

  /** With no newline in any name or unit, splitting a non-empty body at newlines gives back one line per group. */
  lemma DownloadLines(es: seq<ShoppingList.Entry>)
    requires es != []
    requires forall e :: e in es ==> '\n' !in e.name && '\n' !in e.unit
    ensures Split(Join(CartLines(es), "\n"), '\n') == CartLines(es)
  {
    var lines := CartLines(es);
    forall i | 0 <= i < |lines| ensures '\n' !in lines[i] {
      var e := es[i];
      assert e in es;
      var t := if e.total < 0 then -e.total else e.total;
      var digits := NatToString(t);
      assert forall k :: 0 <= k < |digits| ==> IsDigit(digits[k]);
    }
    SplitJoin(lines, '\n');
  }
}

/**
 * The api layout's `UserViewSet.subscribe`, the favourite and cart actions of
 * `RecipeViewSet` (`_create_delete_favorite_shoppingcart`) and its
 * `download_shopping_cart`. Here a missing link on DELETE is "not found", and
 * only POST checks for a self-subscription (the `user_cannot_follow_self`
 * constraint already keeps such a pair out of the table).
 */
module ApiViews {
  import opened Base
  import opened Text
  import Store
  import Links
  import Flags
  import Listing
  import ShoppingList
  import Seqs

  // ---------------------------------------------------------------- subscribe

  /**
   * `subscribe` for an existing author: POST refuses the viewer themself, then
   * adds the pair unless it exists; DELETE removes the pair or is not found.
   */
  function Subscription(subs: set<(UserId, UserId)>, user: UserId, author: UserId, verb: Verb): (r: Links.Step)
    ensures r.outcome == Done <==> (verb == Post && user != author && (user, author) !in subs)
                                   || (verb == Delete && (user, author) in subs)
    ensures r.after == if r.outcome == Done then (if verb == Post then subs + {(user, author)} else subs - {(user, author)})
                       else subs
    ensures verb == Post && user == author ==> r.outcome == Failed(Invalid(SelfSubscription))
    ensures verb == Post && user != author && r.outcome.Failed? ==> r.outcome.error == Invalid(AlreadySubscribed)
    ensures verb == Delete && r.outcome.Failed? ==> r.outcome.error == NotFound
    ensures Store.NoSelfFollow(subs) ==> Store.NoSelfFollow(r.after)
    ensures r.outcome == Done ==> Flags.SubscribedFlag(r.after, LoggedIn(user), author) == (verb == Post)
  {
    if verb == Post then
      if user == author then Links.Refuse(subs, Invalid(SelfSubscription))
      else Links.Insert(subs, (user, author), Invalid(AlreadySubscribed))
    else
      assert verb == Delete;
      Links.Remove(subs, (user, author), NotFound)
  }

  /** Under the table's check constraint, DELETE on oneself is always "not found" and changes nothing. */
  lemma UnsubscribeSelf(subs: set<(UserId, UserId)>, user: UserId)
    requires Store.NoSelfFollow(subs)
    ensures Subscription(subs, user, user, Delete) == Links.Step(Failed(NotFound), subs)
  {
    assert (user, user) !in subs;
  }

  /** POST then DELETE on an author not yet followed restores the subscriptions. */
  lemma SubscribeThenUnsubscribe(subs: set<(UserId, UserId)>, user: UserId, author: UserId)
    requires user != author && (user, author) !in subs
    ensures Subscription(Subscription(subs, user, author, Post).after, user, author, Delete) == Links.Step(Done, subs)
  {
    Links.RemoveUndoesInsert(subs, (user, author), Invalid(AlreadySubscribed), NotFound);
  }

  /**
   * The view: `get_object()` finds the author or is not found, then the
   * subscription table changes as `Subscription` says and nothing else changes.
   */
  method Subscribe(db: Store.Database, user: UserId, author: UserId, verb: Verb) returns (o: Outcome)
    requires db.Valid() && Store.NoSelfFollow(db.subscriptions) && user in db.users
    modifies db
    ensures db.Valid() && Store.NoSelfFollow(db.subscriptions) && db.OnlySubscriptionsChanged()
    ensures author !in db.users ==> o == Failed(NotFound) && db.subscriptions == old(db.subscriptions)
    ensures author in db.users ==> Links.Step(o, db.subscriptions) == Subscription(old(db.subscriptions), user, author, verb)
  {
    if author !in db.users {
      return Failed(NotFound);
    }
    if verb == Post {
      if user == author {
        return Failed(Invalid(SelfSubscription));
      }
      if (user, author) in db.subscriptions {
        return Failed(Invalid(AlreadySubscribed));
      }
      db.subscriptions := db.subscriptions + {(user, author)};
      return Done;
    }
    if (user, author) !in db.subscriptions {
      return Failed(NotFound);
    }
    db.subscriptions := db.subscriptions - {(user, author)};
    return Done;
  }

  // ---------------------------------------------------------------- favourites and cart

  /**
   * `_create_delete_favorite_shoppingcart` for an existing recipe: POST adds the
   * pair unless it exists; DELETE removes it or is not found.
   */
  function ListToggle(links: set<(UserId, RecipeId)>, user: UserId, recipe: RecipeId, verb: Verb): (r: Links.Step)
    ensures r.outcome == Done <==> (verb == Post) == ((user, recipe) !in links)
    ensures r.after == if verb == Post then links + {(user, recipe)} else links - {(user, recipe)}
    ensures r.outcome.Failed? ==> r.outcome.error == (if verb == Post then Invalid(AlreadyInList) else NotFound)
    ensures r.outcome.Failed? ==> r.after == links
    ensures Flags.InList(r.after, LoggedIn(user), recipe) == (verb == Post)
  {
    if verb == Post then Links.Insert(links, (user, recipe), Invalid(AlreadyInList))
    else Links.Remove(links, (user, recipe), NotFound)
  }

  /** The view: `get_object()` finds the recipe or is not found; only the chosen table changes. */
  method ToggleList(db: Store.Database, kind: ListKind, user: UserId, recipe: RecipeId, verb: Verb) returns (o: Outcome)
    requires db.Valid() && user in db.users
    modifies db
    ensures db.Valid() && db.OnlyLinksChanged(kind)
    ensures recipe !in db.recipes ==> o == Failed(NotFound) && db.Links(kind) == old(db.Links(kind))
    ensures recipe in db.recipes ==> Links.Step(o, db.Links(kind)) == ListToggle(old(db.Links(kind)), user, recipe, verb)
  {
    if recipe !in db.recipes {
      return Failed(NotFound);
    }
    var links := db.Links(kind);
    if verb == Post {
      if (user, recipe) in links {
        return Failed(Invalid(AlreadyInList));
      }
      links := links + {(user, recipe)};
    } else {
      if (user, recipe) !in links {
        return Failed(NotFound);
      }
      links := links - {(user, recipe)};
    }
    if kind == Favorites {
      db.favorites := links;
    } else {
      db.carts := links;
    }
    return Done;
  }

  // ---------------------------------------------------------------- download_shopping_cart

  const Title := "Список покупок от "
  const ProductsHeading := "Нужные продукты:"
  const RecipesHeading := "Для рецептов:"

  /** `f'{num}. {name.capitalize()} ({unit}) — {total_amount}'`. */
  function ProductLine(num: nat, e: ShoppingList.Entry, capitalize: string -> string): string {
    NatToString(num) + ". " + capitalize(e.name) + " (" + e.unit + ") — " + IntToString(e.total)
  }

  /** `f'- {recipe.name} (автор: {recipe.author.username})'`. */
  function RecipeLine(r: Recipe, author: User): string {
    "- " + r.name + " (автор: " + author.username + ")"
  }

  /** The products, numbered from 1. */
  function ProductLines(es: seq<ShoppingList.Entry>, capitalize: string -> string): (lines: seq<string>)
    ensures |lines| == |es|
  {
    seq(|es|, i requires 0 <= i < |es| => ProductLine(i + 1, es[i], capitalize))
  }

  function RecipeLines(ids: seq<RecipeId>, recipes: map<RecipeId, Recipe>, users: map<UserId, User>): (lines: seq<string>)
    requires forall x :: x in ids ==> x in recipes && recipes[x].author in users
    ensures |lines| == |ids|
  {
    seq(|ids|, i requires 0 <= i < |ids| => RecipeLine(recipes[ids[i]], users[recipes[ids[i]].author]))
  }

  /** The aggregated products of the user's cart. */
  function Products(rows: seq<Row>, ingredients: map<IngredientId, Ingredient>, carts: set<(UserId, RecipeId)>,
                    user: UserId): seq<ShoppingList.Entry>
  {
    ShoppingList.Aggregate(ShoppingList.CartedProducts(rows, ingredients, carts, user))
  }

  /**
   * The lines of the downloaded file: the title with the date, the products
   * heading, one numbered line per product group, an empty line, the recipes
   * heading and one line per carted recipe with its author. `today` stands for
   * `dt.now()` formatted as day.month.year and `capitalize` for `str.capitalize`.
   */
  function Lines(today: string, products: seq<ShoppingList.Entry>, capitalize: string -> string,
                 cart: seq<RecipeId>, recipes: map<RecipeId, Recipe>, users: map<UserId, User>): (lines: seq<string>)
    requires forall x :: x in cart ==> x in recipes && recipes[x].author in users
    ensures |lines| == 4 + |products| + |cart|
    ensures lines[0] == Title + today && lines[1] == ProductsHeading
    ensures lines[2 + |products|] == "" && lines[3 + |products|] == RecipesHeading
    ensures lines[2..2 + |products|] == ProductLines(products, capitalize)
    ensures lines[4 + |products|..] == RecipeLines(cart, recipes, users)
  {
    var head := [Title + today, ProductsHeading] + ProductLines(products, capitalize);
    var tail := ["", RecipesHeading] + RecipeLines(cart, recipes, users);
    assert (head + tail)[2..2 + |products|] == head[2..];
    assert (head + tail)[4 + |products|..] == tail[2..];
    head + tail
  }

  /** The file body for `user`: the lines joined with newlines. */
  function ShoppingListText(users: map<UserId, User>, ingredients: map<IngredientId, Ingredient>,
                            recipes: map<RecipeId, Recipe>, rows: seq<Row>, carts: set<(UserId, RecipeId)>,
                            nextId: nat, user: UserId, today: string, capitalize: string -> string): string
    requires forall x :: x in recipes ==> recipes[x].author in users
  {
    Join(Lines(today, Products(rows, ingredients, carts, user), capitalize,
               Listing.CartRecipes(recipes, nextId, carts, user), recipes, users), "\n")
  }

  /** The product lines are numbered 1, 2, 3, … in the order of the aggregated, name-ordered groups. */
  lemma ProductLinesNumbered(es: seq<ShoppingList.Entry>, capitalize: string -> string, i: nat)
    requires i < |es|
    ensures ParseNat(DigitPrefix(ProductLines(es, capitalize)[i])) == i + 1
  {
    var n := NatToString(i + 1);
    var rest := ". " + capitalize(es[i].name) + " (" + es[i].unit + ") — " + IntToString(es[i].total);
    assert ProductLines(es, capitalize)[i] == n + rest;
    DigitPrefixOf(n, rest);
    ParseNatToString(i + 1);
  }

  /**
   * The recipes section names every recipe in the user's cart exactly once,
   * newest first, and a user with an empty cart gets no product line and no
   * recipe line.
   */
  lemma CartSections(ingredients: map<IngredientId, Ingredient>, recipes: map<RecipeId, Recipe>, rows: seq<Row>,
                     carts: set<(UserId, RecipeId)>, nextId: nat, user: UserId)
    requires forall x :: x in rows ==> x.recipe in recipes
    requires forall x :: x in recipes ==> x < nextId
    ensures forall x :: x in Listing.CartRecipes(recipes, nextId, carts, user) <==> x in recipes && (user, x) in carts
    ensures Listing.NewestFirstOrder(Listing.CartRecipes(recipes, nextId, carts, user), recipes)
    ensures Seqs.Distinct(Listing.CartRecipes(recipes, nextId, carts, user))
    ensures (forall x :: x in recipes ==> (user, x) !in carts) ==>
              Products(rows, ingredients, carts, user) == [] && Listing.CartRecipes(recipes, nextId, carts, user) == []
  {
    Listing.ListingsOrdered(recipes, nextId, carts, user);
    EmptyCartNoProducts(ingredients, recipes, rows, carts, user);
  }

  lemma EmptyCartNoProducts(ingredients: map<IngredientId, Ingredient>, recipes: map<RecipeId, Recipe>, rows: seq<Row>,
                            carts: set<(UserId, RecipeId)>, user: UserId)
    requires forall x :: x in rows ==> x.recipe in recipes
    ensures (forall x :: x in recipes ==> (user, x) !in carts) ==> Products(rows, ingredients, carts, user) == []
  {
    ShoppingList.CartAggregate(rows, ingredients, carts, user);
  }

  /** When no field holds a newline, splitting the body at newlines gives back exactly the lines. */
  lemma LinesSplit(today: string, products: seq<ShoppingList.Entry>, capitalize: string -> string,
                   cart: seq<RecipeId>, recipes: map<RecipeId, Recipe>, users: map<UserId, User>)
    requires forall x :: x in cart ==> x in recipes && recipes[x].author in users
    requires '\n' !in today
    requires forall s :: '\n' !in capitalize(s)
    requires forall e :: e in products ==> '\n' !in e.unit
    requires forall x :: x in recipes ==> '\n' !in recipes[x].name
    requires forall u :: u in users ==> '\n' !in users[u].username
    ensures Split(Join(Lines(today, products, capitalize, cart, recipes, users), "\n"), '\n')
            == Lines(today, products, capitalize, cart, recipes, users)
  {
    var lines := Lines(today, products, capitalize, cart, recipes, users);
    var pl := ProductLines(products, capitalize);
    var rl := RecipeLines(cart, recipes, users);
    forall i | 0 <= i < |pl| ensures '\n' !in pl[i] {
      ProductLineNoNewline(i + 1, products[i], capitalize);
    }
    forall i | 0 <= i < |rl| ensures '\n' !in rl[i] {
      assert cart[i] in cart;
    }
    forall i | 0 <= i < |lines| ensures '\n' !in lines[i] {
      if 2 <= i < 2 + |products| {
        assert lines[i] == pl[i - 2];
      } else if 4 + |products| <= i {
        assert lines[i] == rl[i - 4 - |products|];
      }
    }
    SplitJoin(lines, '\n');
  }

  /**
   * The downloaded file, split at newlines, is the title, the products
   * heading, one line per (name, unit) group of the cart, an empty line, the
   * recipes heading and one line per carted recipe, provided no date, unit,
   * recipe name or username holds a newline.
   */
  lemma ShoppingListTextLines(users: map<UserId, User>, ingredients: map<IngredientId, Ingredient>,
                              recipes: map<RecipeId, Recipe>, rows: seq<Row>, carts: set<(UserId, RecipeId)>,
                              nextId: nat, user: UserId, today: string, capitalize: string -> string)
    requires forall x :: x in recipes ==> recipes[x].author in users
    requires '\n' !in today
    requires forall s :: '\n' !in capitalize(s)
    requires forall v :: v in ingredients.Values ==> '\n' !in v.unit
    requires forall x :: x in recipes ==> '\n' !in recipes[x].name
    requires forall u :: u in users ==> '\n' !in users[u].username
    ensures Split(ShoppingListText(users, ingredients, recipes, rows, carts, nextId, user, today, capitalize), '\n')
            == Lines(today, Products(rows, ingredients, carts, user), capitalize,
                     Listing.CartRecipes(recipes, nextId, carts, user), recipes, users)
  {
    var products := Products(rows, ingredients, carts, user);
    ProductUnits(ingredients, rows, carts, user);
    forall e | e in products ensures '\n' !in e.unit {
      var v :| v in ingredients.Values && v.unit == e.unit;
    }
    LinesSplit(today, products, capitalize, Listing.CartRecipes(recipes, nextId, carts, user), recipes, users);
  }

  /** A user with nothing in the cart downloads the title and the two headings only. */
  lemma ShoppingListTextEmptyCart(users: map<UserId, User>, ingredients: map<IngredientId, Ingredient>,
                                  recipes: map<RecipeId, Recipe>, rows: seq<Row>, carts: set<(UserId, RecipeId)>,
                                  nextId: nat, user: UserId, today: string, capitalize: string -> string)
    requires forall x :: x in recipes ==> recipes[x].author in users
    requires forall x :: x in rows ==> x.recipe in recipes
    requires forall x :: x in recipes ==> x < nextId
    requires forall x :: x in recipes ==> (user, x) !in carts
    ensures ShoppingListText(users, ingredients, recipes, rows, carts, nextId, user, today, capitalize)
            == Title + today + "\n" + ProductsHeading + "\n" + "" + "\n" + RecipesHeading
  {
    CartSections(ingredients, recipes, rows, carts, nextId, user);
    var lines := Lines(today, [], capitalize, [], recipes, users);
    assert lines == [Title + today, ProductsHeading, "", RecipesHeading];
    JoinFour(Title + today, ProductsHeading, "", RecipesHeading);
  }

  lemma JoinFour(a: string, b: string, c: string, d: string)
    ensures Join([a, b, c, d], "\n") == a + "\n" + b + "\n" + c + "\n" + d
  {
    assert [c, d][1..] == [d];
    assert Join([d], "\n") == d;
    var cd := Join([c, d], "\n");
    assert cd == c + "\n" + d;
    assert [b, c, d][1..] == [c, d];
    var bcd := Join([b, c, d], "\n");
    assert bcd == b + "\n" + cd;
    assert [a, b, c, d][1..] == [b, c, d];
    assert Join([a, b, c, d], "\n") == a + "\n" + bcd;
    assert a + "\n" + (b + "\n" + (c + "\n" + d)) == a + "\n" + b + "\n" + c + "\n" + d;
  }


  /** Every product line carries the unit of a carted ingredient. */
  lemma ProductUnits(ingredients: map<IngredientId, Ingredient>, rows: seq<Row>, carts: set<(UserId, RecipeId)>, user: UserId)
    ensures forall e :: e in Products(rows, ingredients, carts, user) ==>
              exists v :: v in ingredients.Values && v.unit == e.unit
  {
    var ps := ShoppingList.CartedProducts(rows, ingredients, carts, user);
    ShoppingList.AggregateFromProducts(ps);
    forall e | e in Products(rows, ingredients, carts, user) ensures exists v :: v in ingredients.Values && v.unit == e.unit {
      var p :| p in ps && ShoppingList.ProductKey(p) == ShoppingList.Key(e);
      var k :| 0 <= k < |ps| && ps[k] == p;
      assert Ingredient(p.name, p.unit) in ingredients.Values;
    }
  }

  lemma ProductLineNoNewline(num: nat, e: ShoppingList.Entry, capitalize: string -> string)
    requires '\n' !in e.unit && '\n' !in capitalize(e.name)
    ensures '\n' !in ProductLine(num, e, capitalize)
  {
    NoNewlineInNumber(num);
    NoNewlineInNumber(if e.total < 0 then -e.total else e.total);
  }

  lemma NoNewlineInNumber(n: nat)
    ensures '\n' !in NatToString(n) && '\n' !in IntToString(n) && '\n' !in IntToString(-(n as int))
  {
    var s := NatToString(n);
    assert forall k :: 0 <= k < |s| ==> IsDigit(s[k]);
  }
}

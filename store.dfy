/**
 * The database both layouts work on: users, ingredients, recipes, the
 * RecipeIngredient row table and the three link tables, with the constraints
 * the models declare as invariants, the row-table operations the serializers
 * perform and the cascades of deleting a recipe or a user.
 */
module Store {
  import opened Base
  import opened Seqs
  import IngredientModel

  const UsernameMaxLength := 150

  // ---------------------------------------------------------------- table constraints

  /** `username` is at most 150 characters; usernames and emails are unique. */
  ghost predicate UserTable(users: map<UserId, User>) {
    && (forall u :: u in users ==> |users[u].username| <= UsernameMaxLength)
    && (forall u, v :: u in users && v in users && u != v ==>
          users[u].username != users[v].username && users[u].email != users[v].email)
  }

  /** Every recipe has an existing author and a cooking time of at least 1; ids come from a counter. */
  ghost predicate RecipeTable(recipes: map<RecipeId, Recipe>, users: map<UserId, User>, nextId: nat) {
    forall r :: r in recipes ==> r < nextId && recipes[r].author in users && recipes[r].cookingTime >= 1
  }

  predicate SameKey(a: Row, b: Row) {
    a.recipe == b.recipe && a.ingredient == b.ingredient
  }

  /** The `unique_recipe_ingredient` constraint. */
  predicate UniqueRowKeys(rows: seq<Row>) {
    forall i, j :: 0 <= i < j < |rows| ==> !SameKey(rows[i], rows[j])
  }

  /** Rows point at existing recipes and ingredients, amounts are at least 1, (recipe, ingredient) is unique. */
  ghost predicate RowTable(rows: seq<Row>, recipes: map<RecipeId, Recipe>, ingredients: map<IngredientId, Ingredient>) {
    && (forall x :: x in rows ==> x.recipe in recipes && x.ingredient in ingredients && x.amount >= 1)
    && UniqueRowKeys(rows)
  }

  /** Every recipe lists at least one ingredient (kept by create and update). */
  ghost predicate EveryRecipeHasIngredients(recipes: map<RecipeId, Recipe>, rows: seq<Row>) {
    forall r :: r in recipes ==> RecipeIngredients(rows, r) != []
  }

  /** A favourite or cart link joins an existing user to an existing recipe (a set: each pair at most once). */
  ghost predicate LinkTable(links: set<(UserId, RecipeId)>, users: map<UserId, User>, recipes: map<RecipeId, Recipe>) {
    forall p :: p in links ==> p.0 in users && p.1 in recipes
  }

  /** A subscription joins two existing users (a set: each pair at most once). */
  ghost predicate SubscriptionTable(subs: set<(UserId, UserId)>, users: map<UserId, User>) {
    forall p :: p in subs ==> p.0 in users && p.1 in users
  }

  /** The `user_cannot_follow_self` check constraint of the api layout's Subscription model. */
  ghost predicate NoSelfFollow(subs: set<(UserId, UserId)>) {
    forall p :: p in subs ==> p.0 != p.1
  }

  // ---------------------------------------------------------------- the row table

  /** `recipe.recipeingredients.all()`: the recipe's (ingredient, amount) pairs in table order. */
  function RecipeIngredients(rows: seq<Row>, id: RecipeId): seq<IngredientAmount> {
    if rows == [] then []
    else
      (if rows[0].recipe == id then [IngredientAmount(rows[0].ingredient, rows[0].amount)] else [])
      + RecipeIngredients(rows[1..], id)
  }

  /** `RecipeIngredient.objects.filter(recipe__in=gone).delete()`. */
  function RowsWithout(rows: seq<Row>, gone: set<RecipeId>): (r: seq<Row>)
    ensures forall x :: x in r <==> x in rows && x.recipe !in gone
  {
    if rows == [] then []
    else (if rows[0].recipe in gone then [] else [rows[0]]) + RowsWithout(rows[1..], gone)
  }

  /** The rows `bulk_create` inserts for `items`, one per item, in order. */
  function RowsFor(id: RecipeId, items: seq<IngredientAmount>): seq<Row> {
    seq(|items|, i requires 0 <= i < |items| => Row(id, items[i].ingredient, items[i].amount))
  }

  /** The row table after `_save_ingredients(id, items)`: delete the recipe's rows, append the new ones. */
  function ReplacedRows(rows: seq<Row>, id: RecipeId, items: seq<IngredientAmount>): seq<Row> {
    RowsWithout(rows, {id}) + RowsFor(id, items)
  }

  function IngredientIds(items: seq<IngredientAmount>): seq<IngredientId> {
    seq(|items|, i requires 0 <= i < |items| => items[i].ingredient)
  }

  /** The submitted ingredient ids are pairwise distinct. */
  predicate DistinctIngredients(items: seq<IngredientAmount>) {
    Distinct(IngredientIds(items))
  }

  /** Items that may be stored: distinct, existing ingredients, amounts of at least 1. */
  ghost predicate StorableItems(items: seq<IngredientAmount>, ingredients: map<IngredientId, Ingredient>) {
    && DistinctIngredients(items)
    && forall k :: 0 <= k < |items| ==> items[k].ingredient in ingredients && items[k].amount >= 1
  }

  lemma {:induction false} RecipeIngredientsConcat(a: seq<Row>, b: seq<Row>, id: RecipeId)
    ensures RecipeIngredients(a + b, id) == RecipeIngredients(a, id) + RecipeIngredients(b, id)
  {
    if a == [] {
      assert a + b == b;
    } else {
      var head := if a[0].recipe == id then [IngredientAmount(a[0].ingredient, a[0].amount)] else [];
      assert (a + b)[0] == a[0];
      assert (a + b)[1..] == a[1..] + b;
      calc {
        RecipeIngredients(a + b, id);
        head + RecipeIngredients(a[1..] + b, id);
        { RecipeIngredientsConcat(a[1..], b, id); }
        head + (RecipeIngredients(a[1..], id) + RecipeIngredients(b, id));
        (head + RecipeIngredients(a[1..], id)) + RecipeIngredients(b, id);
      }
    }
  }

  /** Deleting the rows of the recipes in `gone` empties their lists and leaves every other list as it was. */
  lemma {:induction false} RecipeIngredientsWithout(rows: seq<Row>, gone: set<RecipeId>, id: RecipeId)
    ensures RecipeIngredients(RowsWithout(rows, gone), id) == if id in gone then [] else RecipeIngredients(rows, id)
  {
    if rows != [] {
      RecipeIngredientsWithout(rows[1..], gone, id);
      var head := if rows[0].recipe in gone then [] else [rows[0]];
      RecipeIngredientsConcat(head, RowsWithout(rows[1..], gone), id);
    }
  }

  lemma {:induction false} RecipeIngredientsOfNewRows(id: RecipeId, items: seq<IngredientAmount>, other: RecipeId)
    ensures RecipeIngredients(RowsFor(id, items), other) == if other == id then items else []
  {
    if items != [] {
      assert RowsFor(id, items)[1..] == RowsFor(id, items[1..]);
      RecipeIngredientsOfNewRows(id, items[1..], other);
      assert items == [items[0]] + items[1..];
    }
  }

  /**
   * `_save_ingredients`: afterwards the recipe's rows are exactly the submitted
   * items, in order, and every other recipe's rows are untouched.
   */
  lemma ReplacedRowsExact(rows: seq<Row>, id: RecipeId, items: seq<IngredientAmount>)
    ensures RecipeIngredients(ReplacedRows(rows, id, items), id) == items
    ensures forall other :: other != id ==>
              RecipeIngredients(ReplacedRows(rows, id, items), other) == RecipeIngredients(rows, other)
  {
    var kept := RowsWithout(rows, {id});
    RecipeIngredientsConcat(kept, RowsFor(id, items), id);
    RecipeIngredientsWithout(rows, {id}, id);
    RecipeIngredientsOfNewRows(id, items, id);
    forall other | other != id
      ensures RecipeIngredients(ReplacedRows(rows, id, items), other) == RecipeIngredients(rows, other)
    {
      RecipeIngredientsConcat(kept, RowsFor(id, items), other);
      RecipeIngredientsWithout(rows, {id}, other);
      RecipeIngredientsOfNewRows(id, items, other);
    }
  }

  lemma {:induction false} RowsWithoutUnique(rows: seq<Row>, gone: set<RecipeId>)
    requires UniqueRowKeys(rows)
    ensures UniqueRowKeys(RowsWithout(rows, gone))
  {
    if rows != [] {
      var tail := rows[1..];
      assert UniqueRowKeys(tail) by {
        forall i, j | 0 <= i < j < |tail| ensures !SameKey(tail[i], tail[j]) {
          assert tail[i] == rows[i + 1] && tail[j] == rows[j + 1];
        }
      }
      RowsWithoutUnique(tail, gone);
      var rest := RowsWithout(tail, gone);
      if rows[0].recipe !in gone {
        forall x | x in rest ensures !SameKey(rows[0], x) {
          var k :| 0 <= k < |tail| && tail[k] == x;
          assert rows[k + 1] == x;
        }
        var r := [rows[0]] + rest;
        forall i, j | 0 <= i < j < |r| ensures !SameKey(r[i], r[j]) {
          if i == 0 {
            assert r[j] == rest[j - 1];
          } else {
            assert r[i] == rest[i - 1] && r[j] == rest[j - 1];
          }
        }
      }
    }
  }

  /** Storing distinct, existing, positive items keeps the row table's constraints. */
  lemma ReplacedRowsTable(rows: seq<Row>, recipes: map<RecipeId, Recipe>, ingredients: map<IngredientId, Ingredient>,
                          id: RecipeId, items: seq<IngredientAmount>)
    requires RowTable(rows, recipes, ingredients) && id in recipes && StorableItems(items, ingredients)
    ensures RowTable(ReplacedRows(rows, id, items), recipes, ingredients)
  {
    var a := RowsWithout(rows, {id});
    var b := RowsFor(id, items);
    var c := a + b;
    RowsWithoutUnique(rows, {id});
    forall x: Row | x in c ensures x.recipe in recipes && x.ingredient in ingredients && x.amount >= 1 {
      if x !in a {
        var k :| 0 <= k < |b| && b[k] == x;
      }
    }
    forall i, j | 0 <= i < j < |c| ensures !SameKey(c[i], c[j]) {
      if j < |a| {
        assert c[i] == a[i] && c[j] == a[j];
      } else if i >= |a| {
        assert c[i] == b[i - |a|] && c[j] == b[j - |a|];
        assert IngredientIds(items)[i - |a|] != IngredientIds(items)[j - |a|];
      } else {
        assert c[i] == a[i] && c[i] in a;
        assert c[j] == b[j - |a|];
      }
    }
  }

  // ---------------------------------------------------------------- scalar fields

  /** `setattr(instance, attr, val)` for one validated field. */
  function SetAttr(r: Recipe, a: Attr): Recipe {
    match a
    case SetName(v) => r.(name := v)
    case SetText(v) => r.(text := v)
    case SetCookingTime(v) => r.(cookingTime := v)
    case SetImage(v) => r.(image := v)
  }

  /** The instance after the `setattr` loop over `attrs`, in order. */
  function Patched(r: Recipe, attrs: seq<Attr>): Recipe {
    if attrs == [] then r else SetAttr(Patched(r, attrs[..|attrs| - 1]), attrs[|attrs| - 1])
  }

  datatype FieldValue = Str(s: string) | Num(n: int)

  function FieldOf(a: Attr): Field {
    match a
    case SetName(_) => NameField
    case SetText(_) => TextField
    case SetCookingTime(_) => CookingTimeField
    case SetImage(_) => ImageField
  }

  function ValueOf(a: Attr): FieldValue {
    match a
    case SetName(v) => Str(v)
    case SetText(v) => Str(v)
    case SetCookingTime(v) => Num(v)
    case SetImage(v) => Str(v)
  }

  function Get(r: Recipe, f: Field): FieldValue {
    match f
    case NameField => Str(r.name)
    case TextField => Str(r.text)
    case CookingTimeField => Num(r.cookingTime)
    case ImageField => Str(r.image)
  }

  /** The value carried by the first attribute naming `f` in `attrs`, or `d` when none does. */
  function FirstValue(attrs: seq<Attr>, f: Field, d: FieldValue): FieldValue {
    if attrs == [] then d else if FieldOf(attrs[0]) == f then ValueOf(attrs[0]) else FirstValue(attrs[1..], f, d)
  }

  /** Python dict keys: no field is provided twice. */
  predicate DistinctFields(attrs: seq<Attr>) {
    forall i, j :: 0 <= i < j < |attrs| ==> FieldOf(attrs[i]) != FieldOf(attrs[j])
  }

  /**
   * Every provided field takes the provided value, every other field keeps its
   * value, and the author and publication date never change.
   */
  lemma {:induction false} PatchedFields(r: Recipe, attrs: seq<Attr>, f: Field)
    requires DistinctFields(attrs)
    ensures Get(Patched(r, attrs), f) == FirstValue(attrs, f, Get(r, f))
    ensures Patched(r, attrs).author == r.author && Patched(r, attrs).pubDate == r.pubDate
  {
    if attrs != [] {
      var init := attrs[..|attrs| - 1];
      var last := attrs[|attrs| - 1];
      assert attrs == init + [last];
      assert DistinctFields(init) by {
        forall i, j | 0 <= i < j < |init| ensures FieldOf(init[i]) != FieldOf(init[j]) {
          assert init[i] == attrs[i] && init[j] == attrs[j];
        }
      }
      PatchedFields(r, init, f);
      var before := Patched(r, init);
      assert Patched(r, attrs) == SetAttr(before, last);
      SetAttrField(before, last, f);
      FirstValueSnoc(init, last, f, Get(r, f));
      if FieldOf(last) == f {
        forall k | 0 <= k < |init| ensures FieldOf(init[k]) != f {
          assert init[k] == attrs[k];
        }
      }
    }
  }

  lemma SetAttrField(r: Recipe, a: Attr, f: Field)
    ensures Get(SetAttr(r, a), f) == if FieldOf(a) == f then ValueOf(a) else Get(r, f)
    ensures SetAttr(r, a).author == r.author && SetAttr(r, a).pubDate == r.pubDate
  {
  }

  lemma {:induction false} FirstValueSnoc(init: seq<Attr>, last: Attr, f: Field, d: FieldValue)
    ensures FieldOf(last) != f ==> FirstValue(init + [last], f, d) == FirstValue(init, f, d)
    ensures (forall k :: 0 <= k < |init| ==> FieldOf(init[k]) != f) ==>
              FirstValue(init + [last], f, d) == (if FieldOf(last) == f then ValueOf(last) else d)
  {
    if init == [] {
      assert init + [last] == [last];
    } else {
      assert (init + [last])[0] == init[0];
      assert (init + [last])[1..] == init[1..] + [last];
      FirstValueSnoc(init[1..], last, f, d);
      if forall k :: 0 <= k < |init| ==> FieldOf(init[k]) != f {
        assert FieldOf(init[0]) != f;
        assert forall k :: 0 <= k < |init[1..]| ==> FieldOf(init[1..][k]) != f by {
          forall k | 0 <= k < |init[1..]| ensures FieldOf(init[1..][k]) != f {
            assert init[1..][k] == init[k + 1];
          }
        }
      }
    }
  }

  // ---------------------------------------------------------------- flags

  /** `Subscription.is_subscribed(user, author)`. */
  predicate IsSubscribed(subs: set<(UserId, UserId)>, user: Viewer, author: UserId) {
    user.LoggedIn? && (user.id, author) in subs
  }

  /** `User.objects.filter(<subscription>__user=user)`: the authors `user` follows. */
  function Followed(subs: set<(UserId, UserId)>, user: UserId): (authors: set<UserId>)
    ensures forall a :: a in authors <==> (user, a) in subs
    ensures NoSelfFollow(subs) ==> user !in authors
  {
    var authors := set p | p in subs && p.0 == user :: p.1;
    assert forall a :: (user, a) in subs ==> a in authors;
    authors
  }

  // ---------------------------------------------------------------- the database

  class Database {
    var users: map<UserId, User>
    var ingredients: map<IngredientId, Ingredient>
    var recipes: map<RecipeId, Recipe>
    var rows: seq<Row>
    var favorites: set<(UserId, RecipeId)>
    var carts: set<(UserId, RecipeId)>
    var subscriptions: set<(UserId, UserId)>
    var nextRecipeId: nat

    /** The constraints every model declares, plus "every recipe has an ingredient". */
    ghost predicate Valid()
      reads this
    {
      Tables() && EveryRecipeHasIngredients(recipes, rows)
    }

    /** The constraints the models declare. */
    ghost predicate Tables()
      reads this
    {
      && UserTable(users)
      && IngredientModel.Table(ingredients)
      && RecipeTable(recipes, users, nextRecipeId)
      && RowTable(rows, recipes, ingredients)
      && LinkTable(favorites, users, recipes)
      && LinkTable(carts, users, recipes)
      && SubscriptionTable(subscriptions, users)
    }

    constructor ()
      ensures Valid() && NoSelfFollow(subscriptions)
      ensures users == map[] && ingredients == map[] && recipes == map[] && rows == []
      ensures favorites == {} && carts == {} && subscriptions == {} && nextRecipeId == 0
    {
      users, ingredients, recipes, rows := map[], map[], map[], [];
      favorites, carts, subscriptions, nextRecipeId := {}, {}, {}, 0;
    }

    /** The link table a favourite or cart request works on. */
    function Links(kind: ListKind): set<(UserId, RecipeId)>
      reads this
    {
      if kind == Favorites then favorites else carts
    }

    /** Nothing but the `kind` link table changed. */
    twostate predicate OnlyLinksChanged(kind: ListKind)
      reads this
    {
      && users == old(users) && ingredients == old(ingredients) && recipes == old(recipes)
      && rows == old(rows) && subscriptions == old(subscriptions) && nextRecipeId == old(nextRecipeId)
      && (if kind == Favorites then carts == old(carts) else favorites == old(favorites))
    }

    /** Nothing but the subscription table changed. */
    twostate predicate OnlySubscriptionsChanged()
      reads this
    {
      && users == old(users) && ingredients == old(ingredients) && recipes == old(recipes)
      && rows == old(rows) && favorites == old(favorites) && carts == old(carts)
      && nextRecipeId == old(nextRecipeId)
    }

    /** Only the recipe and row tables (and the id counter) changed. */
    twostate predicate OnlyRecipeDataChanged()
      reads this
    {
      && users == old(users) && ingredients == old(ingredients)
      && favorites == old(favorites) && carts == old(carts) && subscriptions == old(subscriptions)
    }

    /** `Recipe.objects.create(...)`: a fresh id from the counter. */
    method InsertRecipe(r: Recipe) returns (id: RecipeId)
      requires Tables() && r.author in users && r.cookingTime >= 1
      modifies this
      ensures Tables()
      ensures id == old(nextRecipeId) && id !in old(recipes)
      ensures recipes == old(recipes)[id := r] && nextRecipeId == id + 1
      ensures rows == old(rows) && OnlyRecipeDataChanged()
    {
      id := nextRecipeId;
      recipes := recipes[id := r];
      nextRecipeId := nextRecipeId + 1;
    }

    /** `_save_ingredients`: delete every row of the recipe, then `bulk_create` one row per item. */
    method ReplaceRows(id: RecipeId, items: seq<IngredientAmount>)
      requires Tables() && id in recipes && StorableItems(items, ingredients)
      modifies this
      ensures Tables()
      ensures rows == ReplacedRows(old(rows), id, items)
      ensures recipes == old(recipes) && nextRecipeId == old(nextRecipeId) && OnlyRecipeDataChanged()
    {
      ReplacedRowsTable(rows, recipes, ingredients, id, items);
      rows := RowsWithout(rows, {id});
      rows := rows + RowsFor(id, items);
    }

    /** The `setattr` loop over the validated fields, then `instance.save()`. */
    method SaveFields(id: RecipeId, attrs: seq<Attr>)
      requires Tables() && id in recipes
      requires Patched(recipes[id], attrs).author == recipes[id].author
      requires Patched(recipes[id], attrs).cookingTime >= 1
      modifies this
      ensures Tables()
      ensures recipes == old(recipes)[id := Patched(old(recipes)[id], attrs)]
      ensures rows == old(rows) && nextRecipeId == old(nextRecipeId) && OnlyRecipeDataChanged()
    {
      var instance := recipes[id];
      var i := 0;
      while i < |attrs|
        invariant 0 <= i <= |attrs|
        invariant instance == Patched(old(recipes)[id], attrs[..i])
      {
        assert attrs[..i + 1][..i] == attrs[..i];
        instance := SetAttr(instance, attrs[i]);
        i := i + 1;
      }
      assert attrs[..i] == attrs;
      recipes := recipes[id := instance];
    }

    /** Deleting a recipe: its rows and its favourite and cart links go with it (`on_delete=CASCADE`). */
    method DeleteRecipe(id: RecipeId)
      requires Valid() && id in recipes
      modifies this
      ensures Valid()
      ensures recipes == RecipesWithout(old(recipes), {id}) && rows == RowsWithout(old(rows), {id})
      ensures favorites == LinksWithout(old(favorites), {}, {id})
      ensures carts == LinksWithout(old(carts), {}, {id})
      ensures users == old(users) && ingredients == old(ingredients) && subscriptions == old(subscriptions)
      ensures nextRecipeId == old(nextRecipeId)
    {
      CascadeKeepsTables(recipes, ingredients, rows, {id});
      RecipeRemovalKeepsTables(users, recipes, favorites, nextRecipeId, {id});
      RecipeRemovalKeepsTables(users, recipes, carts, nextRecipeId, {id});
      recipes := RecipesWithout(recipes, {id});
      rows := RowsWithout(rows, {id});
      favorites := LinksWithout(favorites, {}, {id});
      carts := LinksWithout(carts, {}, {id});
    }

    /**
     * Deleting a user: their recipes (with those recipes' rows and links), their
     * own links and every subscription in which they are either side go with them.
     */
    method DeleteUser(u: UserId)
      requires Valid() && u in users
      modifies this
      ensures Valid()
      ensures users == old(users) - {u}
      ensures recipes == RecipesWithout(old(recipes), AuthoredBy(old(recipes), u))
      ensures rows == RowsWithout(old(rows), AuthoredBy(old(recipes), u))
      ensures favorites == LinksWithout(old(favorites), {u}, AuthoredBy(old(recipes), u))
      ensures carts == LinksWithout(old(carts), {u}, AuthoredBy(old(recipes), u))
      ensures subscriptions == set p | p in old(subscriptions) && p.0 != u && p.1 != u
      ensures ingredients == old(ingredients) && nextRecipeId == old(nextRecipeId)
    {
      var gone := AuthoredBy(recipes, u);
      CascadeKeepsTables(recipes, ingredients, rows, gone);
      UserRemovalKeepsTables(users, recipes, favorites, subscriptions, nextRecipeId, u);
      UserRemovalKeepsTables(users, recipes, carts, subscriptions, nextRecipeId, u);
      users := users - {u};
      recipes := RecipesWithout(recipes, gone);
      rows := RowsWithout(rows, gone);
      favorites := LinksWithout(favorites, {u}, gone);
      carts := LinksWithout(carts, {u}, gone);
      subscriptions := set p | p in subscriptions && p.0 != u && p.1 != u;
    }
  }

  /** The recipes written by `u`. */
  function AuthoredBy(recipes: map<RecipeId, Recipe>, u: UserId): (gone: set<RecipeId>)
    ensures forall r :: r in gone <==> r in recipes && recipes[r].author == u
  {
    set r | r in recipes && recipes[r].author == u
  }

  /** The recipe table without the recipes in `gone`. */
  function RecipesWithout(recipes: map<RecipeId, Recipe>, gone: set<RecipeId>): (m: map<RecipeId, Recipe>)
    ensures forall r :: r in m <==> r in recipes && r !in gone
    ensures forall r :: r in m ==> m[r] == recipes[r]
  {
    map r | r in recipes && r !in gone :: recipes[r]
  }

  /** A link table without the links of the users in `people` and of the recipes in `gone`. */
  function LinksWithout(links: set<(UserId, RecipeId)>, people: set<UserId>, gone: set<RecipeId>): (l: set<(UserId, RecipeId)>)
    ensures forall p :: p in l <==> p in links && p.0 !in people && p.1 !in gone
  {
    set p | p in links && p.0 !in people && p.1 !in gone
  }

  /** Removing recipes (with their rows and links) keeps the recipe, row and link tables' constraints. */
  lemma CascadeKeepsTables(recipes: map<RecipeId, Recipe>, ingredients: map<IngredientId, Ingredient>,
                           rows: seq<Row>, gone: set<RecipeId>)
    requires RowTable(rows, recipes, ingredients) && EveryRecipeHasIngredients(recipes, rows)
    ensures RowTable(RowsWithout(rows, gone), RecipesWithout(recipes, gone), ingredients)
    ensures EveryRecipeHasIngredients(RecipesWithout(recipes, gone), RowsWithout(rows, gone))
  {
    RowsWithoutUnique(rows, gone);
    forall r | r in RecipesWithout(recipes, gone)
      ensures RecipeIngredients(RowsWithout(rows, gone), r) != []
    {
      RecipeIngredientsWithout(rows, gone, r);
    }
  }

  /** Removing a user together with their recipes, links and subscriptions keeps the other tables' constraints. */
  lemma UserRemovalKeepsTables(users: map<UserId, User>, recipes: map<RecipeId, Recipe>,
                               links: set<(UserId, RecipeId)>, subs: set<(UserId, UserId)>, nextId: nat, u: UserId)
    requires UserTable(users) && RecipeTable(recipes, users, nextId)
    requires LinkTable(links, users, recipes) && SubscriptionTable(subs, users)
    ensures UserTable(users - {u})
    ensures RecipeTable(RecipesWithout(recipes, AuthoredBy(recipes, u)), users - {u}, nextId)
    ensures LinkTable(LinksWithout(links, {u}, AuthoredBy(recipes, u)), users - {u},
                      RecipesWithout(recipes, AuthoredBy(recipes, u)))
    ensures SubscriptionTable((set p | p in subs && p.0 != u && p.1 != u), users - {u})
  {
  }

  /** Removing recipes together with their links keeps the recipe and link tables' constraints. */
  lemma RecipeRemovalKeepsTables(users: map<UserId, User>, recipes: map<RecipeId, Recipe>,
                                 links: set<(UserId, RecipeId)>, nextId: nat, gone: set<RecipeId>)
    requires RecipeTable(recipes, users, nextId) && LinkTable(links, users, recipes)
    ensures RecipeTable(RecipesWithout(recipes, gone), users, nextId)
    ensures LinkTable(LinksWithout(links, {}, gone), users, RecipesWithout(recipes, gone))
  {
  }

  /** Replacing one recipe's rows by a non-empty list leaves every recipe with at least one ingredient. */
  lemma ReplacedRowsNonEmpty(recipes: map<RecipeId, Recipe>, rows: seq<Row>, id: RecipeId, items: seq<IngredientAmount>)
    requires forall r :: r in recipes && r != id ==> RecipeIngredients(rows, r) != []
    requires items != []
    ensures EveryRecipeHasIngredients(recipes, ReplacedRows(rows, id, items))
  {
    ReplacedRowsExact(rows, id, items);
  }
}

# foodgram backend core, modelled in Dafny

foodgram is a recipe site: users publish recipes made of ingredients with amounts,
follow other authors, mark recipes as favourites, put them in a shopping cart and
download the cart as a shopping list. The backend exists in two layouts that share the
same database design:

- **the api layout** keeps every view in one `api` package (`api/views.py`,
  `api/serializers.py`, `api/filters.py`) over the models of `recipes/models.py`;
- **the split layout** spreads them over per-app packages (`users`, `recipes`,
  `ingredients`, `favorites_cart`).

The model covers:

- the tables and their constraints. `Store.Database` is a class whose fields are the
  users, ingredients, recipes, recipe–ingredient rows, favourite and cart links and
  subscriptions. Its methods are the writes the serializers and the deletion cascades
  perform;
- the validation pipeline of a recipe payload in both layouts, from the per-item
  ingredient serializer to `create` and `update`;
- the subscription, favourite and cart views of both layouts. They differ in which
  error an absent link gives and in where the self-subscription check applies;
- the derived flags a serialized user or recipe carries (`is_subscribed`,
  `is_favorited`, `is_in_shopping_cart`);
- the recipe filter set, the `recipes_limit` cut and the newest-first ordering of
  recipe listings;
- both `download_shopping_cart` views: the aggregation by (name, unit) with summed
  amounts ordered by name, and the text each layout writes.

Sets stand for tables with a uniqueness constraint, and maps keyed by id stand for
tables with a primary key. A `Links.Step` is a view's outcome together with the link
table it leaves behind. Validation and views return `Result`/`Outcome` values; an
`Error` is either `Invalid(reason)` (HTTP 400) or `NotFound` (HTTP 404).

## Model

| member | source | states |
|---|---|---|
| Store.Database.constructor | backend/recipes/models.py:9-31 | empty tables satisfy every table constraint, and no subscription joins a user to themself |
| Store.Database.InsertRecipe | backend/recipes/serializers.py:100 | a new recipe gets the next id, which was unused; every other table and the constraints are kept |
| Store.Database.ReplaceRows | backend/api/serializers.py:202-211 | `_save_ingredients`: the recipe's old rows are deleted and one row per item is appended; the table constraints are kept |
| Store.Database.SaveFields | backend/recipes/serializers.py:106-108 | the `setattr` loop: the recipe becomes `Patched(old, attrs)`; nothing else changes; the constraints are kept |
| Store.Database.DeleteRecipe | backend/recipes/models.py:216-221 | deleting a recipe cascades to its rows, favourite links and cart links; every table constraint is kept |
| Store.Database.DeleteUser | backend/users/models.py:58-70 | deleting a user cascades to their recipes, to those recipes' rows and links, to their own links and to subscriptions on either side; every constraint is kept |
| Store.RowsWithout | backend/recipes/serializers.py:87 | `filter(recipe__in=gone).delete()`: a row survives iff it was there and its recipe is not deleted |
| Store.RecipeIngredientsWithout | backend/recipes/models.py:216-221 | after the cascade, a deleted recipe lists no ingredient and every other recipe keeps its list |
| Store.ReplacedRowsExact | backend/api/serializers.py:202-211 | after `_save_ingredients(id, items)` the recipe lists exactly `items` in order; every other recipe's list is unchanged |
| Store.RowsWithoutUnique | backend/recipes/models.py:236-240 | deleting rows keeps (recipe, ingredient) unique |
| Store.ReplacedRowsTable | backend/recipes/models.py:228-240 | storing distinct, existing items with amounts of at least 1 keeps the row constraints (amount at least 1, unique pair, existing keys) |
| Store.ReplacedRowsNonEmpty | backend/api/serializers.py:224-228 | a non-empty item list keeps every recipe with at least one ingredient |
| Store.PatchedFields | backend/recipes/serializers.py:106-107 | after the `setattr` loop each field holds the value its key carried, or keeps its old value; the author and publication date never change |
| Store.Followed | backend/users/views.py:141 | `list_subscriptions`: an author is listed iff the user follows them; under the no-self-follow constraint never the user |
| Store.AuthoredBy | backend/recipes/models.py:186-190 | the recipes a user's deletion takes with it are exactly the ones they authored |
| Store.RecipesWithout | backend/recipes/models.py:216-221 | a recipe remains iff it was there and is not deleted, with its data unchanged |
| Store.LinksWithout | backend/recipes/models.py:93-102 | a link remains iff neither its user nor its recipe is deleted |
| Store.CascadeKeepsTables | backend/recipes/models.py:216-221 | deleting recipes together with their rows keeps the row constraints and every remaining recipe's ingredient list |
| Store.UserRemovalKeepsTables | backend/users/models.py:58-70 | removing a user with their recipes, links and subscriptions keeps the user, recipe, link and subscription constraints |
| Store.RecipeRemovalKeepsTables | backend/favorites_cart/models.py:18-25 | removing recipes with their favourite and cart links keeps the recipe and link constraints |
| IngredientModel.Str | backend/ingredients/models.py:31-32 | `__str__` is the name, then ", ", the unit and "." |
| IngredientModel.StrInjective | backend/ingredients/models.py:21-32 | when units hold no comma, equal strings mean the same (name, unit) pair, which the uniqueness constraint makes one row |
| IngredientSerializers.ValidateAmount | backend/ingredients/serializers.py:42-45 | an amount below 1 is refused; any other is returned unchanged |
| IngredientSerializers.ParseItem | backend/ingredients/serializers.py:32-40 | an item is accepted iff its `id` is present and names an existing ingredient and its amount is present and at least 1; a missing `id` is refused as missing; otherwise the error names which check failed |
| IngredientSerializers.ParseItems | backend/recipes/serializers.py:71 | a list is accepted iff every item is; the result keeps the order; a failure is the error of one of the items |
| IngredientSerializers.ResubmitPresented | backend/ingredients/serializers.py:17-28 | submitting the `id`/`amount` of rows as shown gives back the same rows |
| RecipePayload.ValidateCookingTime | backend/recipes/serializers.py:113-118 | a cooking time below 1 is refused; any other is returned unchanged |
| RecipePayload.CheckScalars | backend/api/serializers.py:191-200 | the scalar fields pass iff every required one is present, a present `name` or `text` is not blank once stripped (neither model field has `blank=True`), and a present cooking time is at least 1; otherwise the error names a missing required field, a blank field or the cooking time |
| RecipePayload.ValidateIngredientList | backend/api/serializers.py:224-234 | an empty list is refused; a non-empty list passes iff no ingredient repeats; a passing list is returned unchanged |
| RecipePayload.AttrsFields | backend/api/serializers.py:197-200 | `validated_data` names each provided key once, with its provided value |
| RecipePayload.UpdatedRecipe | backend/recipes/serializers.py:104-108 | after an update each provided field takes the payload's value, `name` and `text` stripped, and every other field keeps its value; author and date are kept; a validated payload keeps the cooking time at least 1 and writes a non-empty name and text with no whitespace at either end |
| ApiSerializers.ValidateItems | backend/api/serializers.py:224-234 | a list is accepted iff every item parses and the parsed list is non-empty with no repeated ingredient; accepted items are what the item serializer parsed; an item's error comes first; an empty list is refused as empty |
| ApiSerializers.Validate | backend/api/serializers.py:236-241 | an update (`self.instance` set) without `ingredients` is refused, and so is a non-partial payload without it; an empty list is refused; a blank `name` or `text` is refused; a payload passes iff given ingredients are valid, missing ones are allowed (partial create only) and the scalars pass; the result carries exactly the provided attributes and items |
| ApiSerializers.Create | backend/api/serializers.py:213-217 | on success the recipe is stored under a fresh id with the requesting user as author and its `name` and `text` stripped, and it lists exactly the submitted items; an invalid payload changes nothing |
| ApiSerializers.Update | backend/api/serializers.py:219-222 | an unknown id is not found; on success the rows are replaced by exactly the items and the provided fields written; any failure changes nothing |
| RecipeSerializers.ImageRequired | backend/recipes/serializers.py:80-84 | `image` stops being required exactly on a PATCH |
| RecipeSerializers.FirstBadAmount | backend/recipes/serializers.py:130-135 | none iff every amount is above 0; otherwise the position of an item with an amount of 0 or less |
| RecipeSerializers.CheckAmounts | backend/recipes/serializers.py:130-135 | the loop refuses the first item with an amount of 0 or less, naming its ingredient, and passes otherwise |
| RecipeSerializers.ValidateIngredients | backend/recipes/serializers.py:120-136 | a list passes iff it is non-empty, has no repeated ingredient and every amount is above 0; each error in the source's order |
| RecipeSerializers.ParsedAmountsPass | backend/recipes/serializers.py:130-135 | items the item serializer accepted never fail the amount loop |
| RecipeSerializers.ValidateItems | backend/recipes/serializers.py:120-136 | a list is accepted iff every item parses and the parsed list is non-empty with no repeated ingredient (the amount loop never refuses parsed items); accepted items are what the item serializer parsed; an item's error comes first; an empty list is refused as empty |
| RecipeSerializers.Validate | backend/recipes/serializers.py:66-84 | a non-partial payload without `ingredients` is refused; `image` is required unless the request is a PATCH; a blank `name` or `text` is refused; the pass condition is stated both ways; the result carries exactly the provided attributes and items |
| RecipeSerializers.Create | backend/recipes/serializers.py:98-102 | on success the recipe is stored with the requesting user as author and its `name` and `text` stripped, and lists exactly the submitted items; an invalid payload changes nothing |
| RecipeSerializers.Update | backend/recipes/serializers.py:104-111 | an unknown id is not found; on success the provided fields are written; the rows are replaced when `ingredients` is given and kept otherwise; any failure changes nothing |
| Links.Insert | backend/api/views.py:114-122 | a pair is added iff absent; a present pair gives the chosen error and leaves the table as it was |
| Links.Remove | backend/api/views.py:130-135 | a pair is removed iff present; an absent pair gives the chosen error |
| Links.RemoveUndoesInsert | backend/api/views.py:226-243 | removing a pair just added succeeds and restores the table |
| Links.InsertUndoesRemove | backend/api/views.py:226-243 | adding back a pair just removed succeeds and restores the table |
| Links.InsertTwice | backend/api/views.py:226-234 | a repeated add fails and changes nothing further |
| Links.RemoveTwice | backend/api/views.py:241-242 | a repeated removal fails and changes nothing further |
| ApiViews.Subscription | backend/api/views.py:111-136 | POST succeeds iff the author is someone else and not yet followed; DELETE succeeds iff followed; the self, duplicate and missing cases give their errors (missing is not found); the no-self-follow constraint is kept; after success `is_subscribed` reports the new state |
| ApiViews.UnsubscribeSelf | backend/recipes/models.py:78-81 | under the check constraint, DELETE on oneself is not found and changes nothing |
| ApiViews.SubscribeThenUnsubscribe | backend/api/views.py:111-136 | POST then DELETE on an author not yet followed restores the subscriptions |
| ApiViews.Subscribe | backend/api/views.py:103-136 | an unknown author is not found; otherwise the table changes as `Subscription` says; only subscriptions change; the constraints are kept |
| ApiViews.ListToggle | backend/api/views.py:226-243 | POST succeeds iff the recipe is not listed, DELETE iff it is; the errors are "already listed" and not found; afterwards the flag reports the request's verb |
| ApiViews.ToggleList | backend/api/views.py:214-243 | an unknown recipe is not found; otherwise the chosen table changes as `ListToggle` says; only that table changes |
| ApiViews.Lines | backend/api/views.py:285-298 | the file holds the title with the date, the products heading, one line per product, an empty line, the recipes heading and one line per carted recipe |
| ApiViews.ProductLinesNumbered | backend/api/views.py:288-291 | the i-th product line starts with the number i+1 |
| ApiViews.CartSections | backend/api/views.py:277-279 | the recipes section lists each carted recipe once, newest first; an empty cart gives no products and no recipes |
| ApiViews.LinesSplit | backend/api/views.py:285-298 | when no name, unit, username or date holds a newline, splitting the file at newlines gives back its lines |
| ApiViews.ShoppingListTextLines | backend/api/views.py:264-298 | the downloaded body (`ShoppingListText`), split at newlines, is the title, the products heading, one line per group of the cart, an empty line, the recipes heading and one line per carted recipe |
| ApiViews.ShoppingListTextEmptyCart | backend/api/views.py:264-298 | with nothing in the cart, the downloaded body is the title line, the products heading, an empty line and the recipes heading |
| ApiViews.EmptyCartNoProducts | backend/api/views.py:267-274 | a user with no recipe in the cart gets no product group |
| ApiViews.ProductUnits | backend/api/views.py:267-274 | every product group's unit is the unit of an existing ingredient |
| FavoritesCartViews.CreateLink | backend/favorites_cart/views.py:33-43 | succeeds iff the recipe is not listed; otherwise 400 "already listed" and no change |
| FavoritesCartViews.DestroyLink | backend/favorites_cart/views.py:46-56 | succeeds iff the recipe is listed; otherwise 400 "not listed" and no change |
| FavoritesCartViews.CreateDestroyInverse | backend/favorites_cart/views.py:33-56 | a destroy undoes a successful create, and a create undoes a successful destroy |
| FavoritesCartViews.Create | backend/favorites_cart/views.py:77-87 | an unknown recipe is not found; otherwise the chosen table changes as `CreateLink` says; only that table changes |
| FavoritesCartViews.Destroy | backend/favorites_cart/views.py:90-101 | an unknown recipe is not found; otherwise the chosen table changes as `DestroyLink` says; only that table changes |
| FavoritesCartViews.CartLine | backend/favorites_cart/views.py:117 | a product group's line is never empty |
| FavoritesCartViews.DownloadEmpty | backend/favorites_cart/views.py:107-120 | the body is empty iff the user's cart yields no product |
| FavoritesCartViews.DownloadLines | backend/favorites_cart/views.py:116-120 | without newlines in names and units, splitting the body at newlines gives one line per product group |
| UserViews.Subscription | backend/users/views.py:108-136 | the viewer themself is refused on POST and DELETE alike; POST succeeds iff not yet followed, DELETE iff followed; the failures are 400; no self-follow is ever stored; afterwards `is_subscribed` reports the new state |
| UserViews.Subscribe | backend/users/views.py:101-136 | an unknown author is not found; otherwise the table changes as `Subscription` says; only subscriptions change |
| UserViews.SubscriptionInverse | backend/users/views.py:113-136 | unsubscribing undoes a subscription, and subscribing again undoes an unsubscription |
| Flags.SubscribedFlag | backend/users/serializers.py:80-84 | false without a request or for an anonymous viewer; otherwise whether the viewer follows the author, the same as `Subscription.is_subscribed` and as membership in `Followed` |
| Flags.InList | backend/api/serializers.py:159-171 | false for an anonymous viewer; otherwise whether the viewer listed the recipe |
| RecipeFilters.Members | backend/recipes/filters.py:27-30 | `filter` keeps exactly the recipes the user listed and `exclude` exactly the others |
| RecipeFilters.FilterByList | backend/recipes/filters.py:21-43 | anonymous: nothing for 1, everything otherwise; logged in: the listed recipes for 1, the unlisted ones for 0, everything for other values |
| RecipeFilters.MembersPartition | backend/recipes/filters.py:27-30 | `filter` and `exclude` split the queryset, each recipe as often as before |
| RecipeFilters.FilterPartition | backend/api/filters.py:21-31 | for a logged-in user, values 1 and 0 partition the queryset |
| RecipeFilters.Truncate | backend/recipes/filters.py:13 | the integer lookup's `int()` of the decimal value: its integer part, truncated toward zero |
| RecipeFilters.FilterAuthor | backend/recipes/filters.py:13 | the recipes whose author id equals the value truncated to an integer |
| RecipeFilters.FilterAuthorTruncates | backend/api/filters.py:13 | a fractional value selects exactly what its integer part selects (1.5 lists author 1's recipes) |
| RecipeFilters.FilterAuthorNegative | backend/api/filters.py:13 | a value of -1 or below matches no recipe |
| Listing.NewestFirst | backend/recipes/models.py:205 | the ordering by `-pub_date` keeps the same recipes, each as often as before |
| Listing.NewestFirstSorted | backend/recipes/models.py:201-205 | the listing is ordered newest first, is a permutation of its input and keeps distinctness |
| Listing.AuthorRecipes | backend/users/serializers.py:124 | `author.recipes.all()` holds exactly the author's recipes |
| Listing.CartRecipes | backend/api/views.py:277-279 | holds exactly the recipes in the user's cart |
| Listing.ListingsOrdered | backend/recipes/models.py:201-205 | both listings hold each recipe once, newest first |
| Listing.FirstByUsername | backend/recipes/models.py:42-45 | a non-empty set of users has one whose username comes first |
| Listing.SortByUsername | backend/recipes/models.py:42-45 | the given users, each once, ordered by username |
| Listing.Subscriptions | backend/api/views.py:139-150 | the api layout's `list_subscriptions`: an author is listed iff the user follows them, each once, in `username` order |
| Listing.ByUsernameUnique | backend/recipes/models.py:13-18 | with usernames unique, two username-ordered listings of the same users are the same sequence, so the listing's order is fully determined |
| ShoppingList.CartedProducts | backend/api/views.py:267-271 | every row of a recipe in the user's cart yields its product (ingredient name, unit and the row's amount), and every product comes from such a row; none for a user with nothing in the cart |
| ShoppingList.CartedTotals | backend/api/views.py:267-273 | a group's sum over the carted products equals the sum of `amount` over the carted rows whose ingredient has that (name, unit) |
| ShoppingList.CartedKeysOf | backend/api/views.py:267-272 | the groups of the carted products are exactly the (name, unit) pairs of the carted rows' ingredients |
| ShoppingList.CartAggregate | backend/favorites_cart/views.py:107-115 | a user's list is ordered by name and has one entry per (name, unit) pair of a carted row and no other; each total is the sum of that pair's amounts over the cart's rows; the list is empty iff no row is carted |
| ShoppingList.AddToOrdered | backend/api/views.py:269-274 | adding a product keeps the groups ordered by name and unique |
| ShoppingList.AddToKeys | backend/api/views.py:269-272 | adding a product adds its (name, unit) group |
| ShoppingList.AddToTotal | backend/api/views.py:273 | adding a product adds its amount to its group's total and to no other group's |
| ShoppingList.AggregateCorrect | backend/api/views.py:267-274 | the result is ordered by name, has one entry per (name, unit) group of the products and no other, each total is its group's sum, and it is empty iff there is no product |
| ShoppingList.AggregateFromProducts | backend/favorites_cart/views.py:107-115 | every group comes from some carted product |
| UserSerializers.ValidateUsername | backend/users/serializers.py:30-35 | accepted iff at most 150 characters long and not taken; "too long" exactly when longer than 150 |
| UserSerializers.ValidateName | backend/users/serializers.py:37-45 | a first or last name is accepted iff at most 150 characters long |
| UserSerializers.EmptyUsernameAccepted | backend/users/serializers.py:31-32 | `validate_username` itself never refuses an empty username nobody has: its lower bound is dead |
| UserSerializers.AcceptedUsernameFits | backend/users/models.py:9-33 | an accepted username, with an unused email, can be stored without breaking the user table's length and uniqueness constraints |
| UserSerializers.GetRecipes | backend/users/serializers.py:121-130 | the result is a prefix of the listing: the first `int(limit)` recipes for a digit string, all of them otherwise |
| UserSerializers.GetRecipesOfNumber | backend/api/serializers.py:120-130 | asking for `str(n)` gives exactly the first n recipes, or all when there are fewer |
| UserSerializers.LimitKeepsNewest | backend/users/serializers.py:124-126 | every recipe the cut leaves out is no newer than every recipe it keeps |
| Seqs.ElementsSize | backend/api/serializers.py:229-230 | `len(ids) == len(set(ids))` holds iff no id repeats |
| Text.ParseNatToString | backend/users/serializers.py:125-126 | `int(str(n)) == n` |
| Text.SplitJoin | backend/favorites_cart/views.py:120 | splitting a newline join of newline-free lines gives back the lines |
| Text.JoinEmpty | backend/favorites_cart/views.py:120 | a join of non-empty lines is empty iff there are no lines |
| Text.LexLeAntisymmetric | backend/recipes/models.py:45 | two strings each no greater than the other are equal |
| Text.Leading | backend/recipes/models.py:171-177 | the number of whitespace characters a string starts with |
| Text.Strip | backend/recipes/models.py:171-177 | `str.strip()`, which the `name` and `text` serializer fields apply: the slice left after the whitespace at both ends; non-empty ones start and end with a non-space; empty iff the input is all whitespace |
| Text.StripIdempotent | backend/recipes/models.py:171-177 | stripping a stripped string changes nothing |

## Left out

- HTTP routing, authentication, permissions (`IsAuthorOrReadOnly`, `IsAuthenticated`), passwords and djoser's user creation and password change are not modelled. The views take an authenticated user id, or a `Viewer`, as a parameter.
- Images and avatars (`Base64ImageField`, the avatar endpoints) are left out. An image is a string, and the split layout's required/optional `image` rule is kept.
- Ingredient search by name prefix, pagination, short links, the admin and the read-only ingredient views are not modelled.
- Database transactions and concurrent requests are left out: each operation runs alone.
- DRF collects every field error of a payload; the model returns the first in field-declaration order. Acceptance is the same either way.
- Recipe `name` `max_length=256` and the email format and length are not checked by the model.
- Store.Followed: the split layout's user model declares no ordering (backend/users/models.py:45-47), so its subscription listing comes in an unspecified order and the model gives it as a set. The api layout's listing is `Listing.Subscriptions`, ordered by username.
- Text.IsSpace follows `str.isspace()` for the Unicode whitespace characters; the Unicode database is not modelled beyond that list.
- `str.isdigit` and `int` are modelled for ASCII digits only. String order is code-point order rather than the database collation, and the order of recipes with equal `pub_date` is left unspecified.
- `str.capitalize` and the current date are parameters of `ApiViews.Lines`. Writing the file (`BytesIO`, `FileResponse`, `HttpResponse`) is left out.
- Integer fields are unbounded, so the 32-bit column width of amounts, cooking times and their sums is not modelled.
- Flags.SubscribedFlag: the api layout's `get_is_subscribed` gives `None`, not `False`, when there is no request. The model gives false for both layouts.
- Flags.InList: with no request in the context the api layout's `get_is_favorited` raises `KeyError`. The model treats that case as an anonymous viewer.
- RecipeFilters.FilterByList: the api layout's filters look up `in_favorites__user` and `in_shoppingcarts__user` (backend/api/filters.py:28,40), but its models' default related names are `favorites` and `shoppingcarts` (backend/recipes/models.py:106). The model gives both layouts the membership semantics of the split layout's working lookups.
- RecipeFilters.FilterAuthor: a non-numeric query value, which `NumberFilter` rejects with a form error, is not modelled. The value is a real number, truncated as the integer id lookup does.
- UserSerializers.ValidateUsername and UserSerializers.ValidateName model only the `validate_username`, `validate_first_name` and `validate_last_name` methods (backend/users/serializers.py:30-45). The field-level checks that run before them are not modelled: `required=True`, DRF's non-blank rule for `CharField` and `UnicodeUsernameValidator`'s pattern (backend/users/serializers.py:20-23). The endpoint as a whole does refuse an empty username.
- ShoppingList.CartedProducts: a row whose ingredient is missing yields no product. In the database this cannot happen, because the row table's foreign key keeps every row's ingredient.
- Deleting an ingredient (cascading to its rows) is not modelled, because no core operation deletes ingredients.
- RecipeSerializers.Update: the split layout's `partial_update` always builds the serializer with `partial=False` (backend/recipes/views.py:61-66). That makes `ingredients` required on PUT and PATCH alike. The model keeps `partial` as a parameter and its contract covers both values.
- Store.Database.InsertRecipe: `pub_date` (`auto_now_add`) is a parameter of the create methods (`now`), not a clock reading.

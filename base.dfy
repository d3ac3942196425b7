/** Identifiers, records and outcomes shared by every part of the model. */
module Base {

  type UserId = nat
  type RecipeId = nat
  type IngredientId = nat

  datatype Option<+T> = None | Some(value: T)

  /** Why a request was refused. */
  datatype Error =
    | Invalid(reason: Reason)     // serializers.ValidationError, or an explicit 400 response
    | NotFound                    // get_object / get_object_or_404: a 404 response

  datatype Reason =
    | IngredientsEmpty
    | IngredientsNotUnique
    | IngredientsMissing
    | UnknownIngredient(id: IngredientId)
    | AmountMissing(id: IngredientId)
    | AmountBelowOne(id: IngredientId)
    | CookingTimeBelowOne
    | SelfSubscription
    | AlreadySubscribed
    | NotSubscribed
    | AlreadyInList
    | NotInList
    | UsernameTooLong
    | UsernameTaken
    | NameTooLong
    | Required(field: Field)
    | Blank(field: Field)
    | IdMissing

  datatype Result<+T> = Ok(value: T) | Err(error: Error)

  /** The outcome of a request whose success carries no value of interest. */
  datatype Outcome = Done | Failed(error: Error)

  /** A row of the user table (the fields the core reads). */
  datatype User = User(username: string, email: string, firstName: string, lastName: string)

  /** A row of the ingredient table. */
  datatype Ingredient = Ingredient(name: string, unit: string)

  /** The scalar part of a recipe; its ingredients live in the row table. */
  datatype Recipe = Recipe(author: UserId, name: string, text: string, cookingTime: int,
                           image: string, pubDate: int)

  /** A recipe create or update payload: every key may be absent. */
  datatype Payload = Payload(name: Option<string>, text: Option<string>, cookingTime: Option<int>,
                             image: Option<string>, ingredients: Option<seq<RawItem>>)

  /** The scalar fields of a recipe payload. */
  datatype Field = NameField | TextField | CookingTimeField | ImageField

  /** One scalar field of a validated update payload, as `setattr` receives it. */
  datatype Attr =
    | SetName(name: string)
    | SetText(text: string)
    | SetCookingTime(minutes: int)
    | SetImage(image: string)

  /** A RecipeIngredient row: `amount` of `ingredient` in `recipe`. */
  datatype Row = Row(recipe: RecipeId, ingredient: IngredientId, amount: int)

  /** A validated ingredient item (`id` already resolved to the ingredient and renamed `ingredient`). */
  datatype IngredientAmount = IngredientAmount(ingredient: IngredientId, amount: int)

  /** An ingredient item as submitted: `{"id": ..., "amount": ...}`, either key possibly absent. */
  datatype RawItem = RawItem(id: Option<IngredientId>, amount: Option<int>)

  /** The two verbs of a membership toggle endpoint. */
  datatype Verb = Post | Delete

  datatype HttpMethod = GET | POST | PUT | PATCH | DELETE

  /** Which user/recipe link table a toggle works on. */
  datatype ListKind = Favorites | Cart

  /** What a serializer knows about the request: none at all, an anonymous user, or a logged-in one. */
  datatype Viewer = NoRequest | Anonymous | LoggedIn(id: UserId)
}

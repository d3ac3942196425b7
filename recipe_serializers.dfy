/**
 * The split layout's recipe serializer: `image` optional on PATCH, the
 * ingredient checks (with a loop over the amounts), `create` with the
 * requesting user as author, and `update`, which writes the scalar fields and
 * then replaces the rows only when `ingredients` was given.
 */
module RecipeSerializers {
  import opened Base
  import opened Store
  import opened RecipePayload
  import Text
  import IngredientSerializers

  /** `__init__`: `image` stops being required exactly when the request is a PATCH. */
  function ImageRequired(request: Option<HttpMethod>): (b: bool)
    ensures !b <==> request == Some(PATCH)
  {
    !(request.Some? && request.value == PATCH)
  }

  /** The position of the first item whose amount is 0 or less. */
  function FirstBadAmount(items: seq<IngredientAmount>): (k: Option<nat>)
    ensures k.None? <==> forall i :: 0 <= i < |items| ==> items[i].amount > 0
    ensures k.Some? ==> k.value < |items| && items[k.value].amount <= 0
                        && forall i :: 0 <= i < k.value ==> items[i].amount > 0
  {
    if items == [] then None
    else if items[0].amount <= 0 then Some(0)
    else
      match FirstBadAmount(items[1..])
      case None => None
      case Some(j) => Some(j + 1)
  }

  /** The loop of `validate_ingredients`: the first item with an amount of 0 or less is refused, naming its ingredient. */
  method CheckAmounts(items: seq<IngredientAmount>) returns (r: Outcome)
    ensures r == match FirstBadAmount(items)
                 case None => Done
                 case Some(k) => Failed(Invalid(AmountBelowOne(items[k].ingredient)))
  {
    for i := 0 to |items|
      invariant forall j :: 0 <= j < i ==> items[j].amount > 0
    {
      if items[i].amount <= 0 {
        return Failed(Invalid(AmountBelowOne(items[i].ingredient)));
      }
    }
    return Done;
  }

  /** `validate_ingredients`: non-empty, no repeated ingredient, every amount above 0. */
  function ValidateIngredients(value: seq<IngredientAmount>): (r: Result<seq<IngredientAmount>>)
    ensures r.Ok? <==> value != [] && DistinctIngredients(value)
                       && forall i :: 0 <= i < |value| ==> value[i].amount > 0
    ensures r.Ok? ==> r.value == value
    ensures value == [] ==> r == Err(Invalid(IngredientsEmpty))
    ensures value != [] && !DistinctIngredients(value) ==> r == Err(Invalid(IngredientsNotUnique))
  {
    match ValidateIngredientList(value)
    case Err(e) => Err(e)
    case Ok(_) =>
      match FirstBadAmount(value)
      case Some(k) => Err(Invalid(AmountBelowOne(value[k].ingredient)))
      case None => Ok(value)
  }

  /**
   * Items that made it through the item serializer already have amounts of at
   * least 1, so the amount loop never refuses them.
   */
  lemma ParsedAmountsPass(raws: seq<RawItem>, known: map<IngredientId, Ingredient>)
    requires IngredientSerializers.ParseItems(raws, known).Ok?
    ensures FirstBadAmount(IngredientSerializers.ParseItems(raws, known).value).None?
  {
  }

  /** The scalar keys a request must carry: none for a partial serializer, otherwise all, `image` as `ImageRequired` says. */
  function RequiredFields(verb: HttpMethod, partial: bool): set<Field> {
    if partial then {}
    else {NameField, TextField, CookingTimeField} + (if ImageRequired(Some(verb)) then {ImageField} else {})
  }

  /** The ingredient key: parsed item by item, then `validate_ingredients`. */
  function ValidateItems(raws: seq<RawItem>, known: map<IngredientId, Ingredient>): (r: Result<seq<IngredientAmount>>)
    ensures r.Ok? ==> r.value != [] && StorableItems(r.value, known)
    ensures r.Ok? ==> IngredientSerializers.ParseItems(raws, known) == Ok(r.value)
    ensures r.Ok? <==> IngredientSerializers.ParseItems(raws, known).Ok?
                       && IngredientSerializers.ParseItems(raws, known).value != []
                       && DistinctIngredients(IngredientSerializers.ParseItems(raws, known).value)
    ensures IngredientSerializers.ParseItems(raws, known).Err? ==> r == Err(IngredientSerializers.ParseItems(raws, known).error)
    ensures raws == [] ==> r == Err(Invalid(IngredientsEmpty))
  {
    match IngredientSerializers.ParseItems(raws, known)
    case Err(e) => Err(e)
    case Ok(items) =>
      ParsedAmountsPass(raws, known);
      ValidateIngredients(items)
  }

  /**
   * `is_valid()`: `ingredients` first (required unless the serializer is
   * partial), then the scalar fields, `image` required except on a PATCH.
   */
  function Validate(p: Payload, known: map<IngredientId, Ingredient>, verb: HttpMethod, partial: bool): (r: Result<Validated>)
    ensures !partial && p.ingredients.None? ==> r == Err(Invalid(IngredientsMissing))
    ensures !partial && verb != PATCH && p.image.None? ==> r.Err?
    ensures verb == PATCH ==> r != Err(Invalid(Required(ImageField)))
    ensures IsBlank(p, NameField) || IsBlank(p, TextField) ==> r.Err?
    ensures r.Ok? <==> (p.ingredients.Some? ==> ValidateItems(p.ingredients.value, known).Ok?)
                       && (!partial ==> p.ingredients.Some?)
                       && CheckScalars(p, RequiredFields(verb, partial)) == Done
    ensures r.Ok? ==> r.value.attrs == Attrs(p)
    ensures r.Ok? ==> r.value.items == if p.ingredients.None? then None
                                       else Some(ValidateItems(p.ingredients.value, known).value)
  {
    var items :=
      if p.ingredients.None? then (if partial then Ok(None) else Err(Invalid(IngredientsMissing)))
      else match ValidateItems(p.ingredients.value, known)
        case Err(e) => Err(e)
        case Ok(v) => Ok(Some(v));
    match items
    case Err(e) => Err(e)
    case Ok(v) =>
      match CheckScalars(p, RequiredFields(verb, partial))
      case Failed(e) => Err(e)
      case Done => Ok(Validated(Attrs(p), v))
  }

  /**
   * `create` (a POST): the recipe is stored with the requesting user as author,
   * then exactly the submitted rows are stored for it; an invalid payload
   * changes nothing.
   */
  method Create(db: Database, user: UserId, p: Payload, now: int) returns (r: Result<RecipeId>)
    requires db.Valid() && user in db.users
    modifies db
    ensures db.Valid()
    ensures r.Ok? <==> Validate(p, old(db.ingredients), POST, false).Ok?
    ensures r.Err? ==> r == Err(Validate(p, old(db.ingredients), POST, false).error) && unchanged(db)
    ensures r.Ok? ==>
              var v := Validate(p, old(db.ingredients), POST, false).value;
              && r.value !in old(db.recipes)
              && db.recipes == old(db.recipes)[r.value := Recipe(user, Text.Strip(p.name.value),
                                                     Text.Strip(p.text.value), p.cookingTime.value,
                                                     p.image.value, now)]
              && RecipeIngredients(db.rows, r.value) == v.items.value
              && (forall other :: other != r.value ==>
                    RecipeIngredients(db.rows, other) == RecipeIngredients(old(db.rows), other))
              && db.OnlyRecipeDataChanged()
  {
    var checked := Validate(p, db.ingredients, POST, false);
    if checked.Err? {
      return Err(checked.error);
    }
    var items := checked.value.items.value;
    var recipe := Recipe(user, Text.Strip(p.name.value), Text.Strip(p.text.value),
                         p.cookingTime.value, p.image.value, now);
    var id := db.InsertRecipe(recipe);
    ghost var before := db.rows;
    db.ReplaceRows(id, items);
    ReplacedRowsExact(before, id, items);
    ReplacedRowsNonEmpty(db.recipes, before, id, items);
    r := Ok(id);
  }

  /**
   * `update` (a PUT or PATCH; the layout's views always pass `partial=False`):
   * an unknown id is not found; otherwise every
   * provided scalar field is written and saved, and the rows are replaced by
   * exactly the submitted items when `ingredients` was given and left as they
   * were when it was not. An invalid payload changes nothing.
   */
  method Update(db: Database, id: RecipeId, p: Payload, verb: HttpMethod, partial: bool) returns (r: Outcome)
    requires db.Valid()
    modifies db
    ensures db.Valid()
    ensures r.Failed? ==> unchanged(db)
    ensures id !in old(db.recipes) ==> r == Failed(NotFound)
    ensures id in old(db.recipes) ==> (r == Done <==> Validate(p, old(db.ingredients), verb, partial).Ok?)
    ensures r == Done ==>
              var v := Validate(p, old(db.ingredients), verb, partial).value;
              && db.recipes == old(db.recipes)[id := Patched(old(db.recipes)[id], v.attrs)]
              && (v.items.None? ==> db.rows == old(db.rows))
              && (v.items.Some? ==> RecipeIngredients(db.rows, id) == v.items.value)
              && (forall other :: other != id ==>
                    RecipeIngredients(db.rows, other) == RecipeIngredients(old(db.rows), other))
              && db.OnlyRecipeDataChanged() && db.nextRecipeId == old(db.nextRecipeId)
  {
    if id !in db.recipes {
      return Failed(NotFound);
    }
    var checked := Validate(p, db.ingredients, verb, partial);
    if checked.Err? {
      return Failed(checked.error);
    }
    UpdatedRecipe(db.recipes[id], p);
    db.SaveFields(id, Attrs(p));
    if checked.value.items.Some? {
      var items := checked.value.items.value;
      ghost var before := db.rows;
      db.ReplaceRows(id, items);
      ReplacedRowsExact(before, id, items);
      ReplacedRowsNonEmpty(db.recipes, before, id, items);
    }
    r := Done;
  }
}

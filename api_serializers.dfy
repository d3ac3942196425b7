/**
 * The api layout's recipe serializer: the validation pipeline of a create or
 * update payload, `create` (recipe first, then its rows) and `update` (rows
 * first, then the scalar fields).
 */
module ApiSerializers {
  import opened Base
  import opened Store
  import opened RecipePayload
  import Text
  import IngredientSerializers

  /** The scalar keys a full (non-partial) payload must carry: every one, `image` as well. */
  function RequiredFields(partial: bool): set<Field> {
    if partial then {} else {ImageField, NameField, TextField, CookingTimeField}
  }

  /** The ingredient key: parsed item by item, then `validate_ingredients`. */
  function ValidateItems(raws: seq<RawItem>, known: map<IngredientId, Ingredient>): (r: Result<seq<IngredientAmount>>)
    ensures r.Ok? ==> r.value != [] && StorableItems(r.value, known)
    ensures r.Ok? ==> IngredientSerializers.ParseItems(raws, known) == Ok(r.value)
    ensures r.Ok? <==> IngredientSerializers.ParseItems(raws, known).Ok?
                       && IngredientSerializers.ParseItems(raws, known).value != []
                       && DistinctIngredients(IngredientSerializers.ParseItems(raws, known).value)
    ensures IngredientSerializers.ParseItems(raws, known).Err? ==> r == Err(IngredientSerializers.ParseItems(raws, known).error)
    ensures raws == [] ==> r == Err(Invalid(IngredientsEmpty))
  {
    match IngredientSerializers.ParseItems(raws, known)
    case Err(e) => Err(e)
    case Ok(items) => ValidateIngredientList(items)
  }

  /**
   * `is_valid()` of `RecipeCreateUpdateSerializer`: the fields in declaration
   * order (`ingredients` first), then `validate`, which refuses an update
   * without `ingredients`.
   */
  function Validate(p: Payload, known: map<IngredientId, Ingredient>, partial: bool, isUpdate: bool): (r: Result<Validated>)
    ensures isUpdate && p.ingredients.None? ==> r.Err?
    ensures isUpdate && p.ingredients.None? && CheckScalars(p, RequiredFields(partial)) == Done ==>
              r == Err(Invalid(IngredientsMissing))
    ensures !partial && p.ingredients.None? ==> r == Err(Invalid(IngredientsMissing))
    ensures p.ingredients == Some([]) ==> r == Err(Invalid(IngredientsEmpty))
    ensures IsBlank(p, NameField) || IsBlank(p, TextField) ==> r.Err?
    ensures r.Ok? <==> (p.ingredients.Some? ==> ValidateItems(p.ingredients.value, known).Ok?)
                       && (p.ingredients.None? ==> partial && !isUpdate)
                       && CheckScalars(p, RequiredFields(partial)) == Done
    ensures r.Ok? ==> r.value.attrs == Attrs(p)
    ensures r.Ok? ==> r.value.items == if p.ingredients.None? then None
                                       else Some(ValidateItems(p.ingredients.value, known).value)
  {
    var items :=
      if p.ingredients.None? then (if partial then Ok(None) else Err(Invalid(IngredientsMissing)))
      else match ValidateItems(p.ingredients.value, known)
        case Err(e) => Err(e)
        case Ok(v) => Ok(Some(v));
    match items
    case Err(e) => Err(e)
    case Ok(v) =>
      match CheckScalars(p, RequiredFields(partial))
      case Failed(e) => Err(e)
      case Done => if isUpdate && v.None? then Err(Invalid(IngredientsMissing)) else Ok(Validated(Attrs(p), v))
  }

  /**
   * `serializer.save(author=request.user)` on a create: the recipe is stored
   * with a fresh id and the requesting user as author, then exactly the
   * submitted rows are stored for it; an invalid payload changes nothing.
   */
  method Create(db: Database, author: UserId, p: Payload, now: int) returns (r: Result<RecipeId>)
    requires db.Valid() && author in db.users
    modifies db
    ensures db.Valid()
    ensures r.Ok? <==> Validate(p, old(db.ingredients), false, false).Ok?
    ensures r.Err? ==> r == Err(Validate(p, old(db.ingredients), false, false).error) && unchanged(db)
    ensures r.Ok? ==>
              var v := Validate(p, old(db.ingredients), false, false).value;
              && r.value !in old(db.recipes)
              && db.recipes == old(db.recipes)[r.value := Recipe(author, Text.Strip(p.name.value),
                                                     Text.Strip(p.text.value), p.cookingTime.value,
                                                     p.image.value, now)]
              && RecipeIngredients(db.rows, r.value) == v.items.value
              && (forall other :: other != r.value ==>
                    RecipeIngredients(db.rows, other) == RecipeIngredients(old(db.rows), other))
              && db.OnlyRecipeDataChanged()
  {
    var checked := Validate(p, db.ingredients, false, false);
    if checked.Err? {
      return Err(checked.error);
    }
    var items := checked.value.items.value;
    var recipe := Recipe(author, Text.Strip(p.name.value), Text.Strip(p.text.value),
                         p.cookingTime.value, p.image.value, now);
    var id := db.InsertRecipe(recipe);
    ghost var before := db.rows;
    db.ReplaceRows(id, items);
    ReplacedRowsExact(before, id, items);
    ReplacedRowsNonEmpty(db.recipes, before, id, items);
    r := Ok(id);
  }

  /**
   * A PUT or PATCH on a recipe: an unknown id is not found; otherwise, after
   * validation, the recipe's rows are replaced by exactly the submitted items
   * and then every provided scalar field is written. An invalid payload changes
   * nothing.
   */
  method Update(db: Database, id: RecipeId, p: Payload, partial: bool) returns (r: Outcome)
    requires db.Valid()
    modifies db
    ensures db.Valid()
    ensures r.Failed? ==> unchanged(db)
    ensures id !in old(db.recipes) ==> r == Failed(NotFound)
    ensures id in old(db.recipes) ==> (r == Done <==> Validate(p, old(db.ingredients), partial, true).Ok?)
    ensures r == Done ==>
              var v := Validate(p, old(db.ingredients), partial, true).value;
              && db.recipes == old(db.recipes)[id := Patched(old(db.recipes)[id], v.attrs)]
              && RecipeIngredients(db.rows, id) == v.items.value
              && (forall other :: other != id ==>
                    RecipeIngredients(db.rows, other) == RecipeIngredients(old(db.rows), other))
              && db.OnlyRecipeDataChanged() && db.nextRecipeId == old(db.nextRecipeId)
  {
    if id !in db.recipes {
      return Failed(NotFound);
    }
    var checked := Validate(p, db.ingredients, partial, true);
    if checked.Err? {
      return Failed(checked.error);
    }
    var items := checked.value.items.value;
    ghost var before := db.rows;
    db.ReplaceRows(id, items);
    ReplacedRowsExact(before, id, items);
    ReplacedRowsNonEmpty(db.recipes, before, id, items);
    UpdatedRecipe(db.recipes[id], p);
    db.SaveFields(id, Attrs(p));
    r := Done;
  }
}

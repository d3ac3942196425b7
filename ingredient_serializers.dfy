/**
 * The ingredient item of a recipe payload (`{"id", "amount"}`) and the
 * ingredient row shown inside a recipe (`{"id", "name", "measurement_unit",
 * "amount"}`). Both layouts declare the same two serializers.
 */
module IngredientSerializers {
  import opened Base

  /** The `min_value` of the `amount` field. */
  const AmountMin := 1

  /** `validate_amount`: an amount below 1 is refused, any other comes back unchanged. */
  function ValidateAmount(id: IngredientId, value: int): (r: Result<int>)
    ensures r.Ok? <==> value >= AmountMin
    ensures r.Ok? ==> r.value == value
    ensures r.Err? ==> r.error == Invalid(AmountBelowOne(id))
  {
    if value < AmountMin then Err(Invalid(AmountBelowOne(id))) else Ok(value)
  }

  /**
   * One item: `id` must be present and name an existing ingredient (it comes
   * out under the key `ingredient`), `amount` must be present and at least 1.
   */
  function ParseItem(raw: RawItem, known: map<IngredientId, Ingredient>): (r: Result<IngredientAmount>)
    ensures r.Ok? <==> raw.id.Some? && raw.id.value in known && raw.amount.Some? && raw.amount.value >= AmountMin
    ensures r.Ok? ==> r.value == IngredientAmount(raw.id.value, raw.amount.value)
    ensures raw.id.None? ==> r == Err(Invalid(IdMissing))
    ensures raw.id.Some? && r.Err? ==>
              r.error in {Invalid(UnknownIngredient(raw.id.value)), Invalid(AmountMissing(raw.id.value)),
                          Invalid(AmountBelowOne(raw.id.value))}
  {
    match raw.id
    case None => Err(Invalid(IdMissing))
    case Some(id) =>
      if id !in known then Err(Invalid(UnknownIngredient(id)))
      else if raw.amount.None? then Err(Invalid(AmountMissing(id)))
      else
        match ValidateAmount(id, raw.amount.value)
        case Err(e) => Err(e)
        case Ok(v) => Ok(IngredientAmount(id, v))
  }

  /** The list field (`many=True`): every item must parse; the result keeps the submitted order. */
  function ParseItems(raws: seq<RawItem>, known: map<IngredientId, Ingredient>): (r: Result<seq<IngredientAmount>>)
    ensures r.Ok? <==> forall i :: 0 <= i < |raws| ==> ParseItem(raws[i], known).Ok?
    ensures r.Ok? ==> |r.value| == |raws|
    ensures r.Ok? ==> forall i :: 0 <= i < |raws| ==> r.value[i] == ParseItem(raws[i], known).value
    ensures r.Err? ==> exists i :: 0 <= i < |raws| && ParseItem(raws[i], known) == Err(r.error)
  {
    if raws == [] then Ok([])
    else
      match ParseItem(raws[0], known)
      case Err(e) => Err(e)
      case Ok(item) =>
        match ParseItems(raws[1..], known)
        case Err(e) => Err(e)
        case Ok(rest) => Ok([item] + rest)
  }

  /** An ingredient row as a recipe view shows it. */
  datatype RowView = RowView(id: IngredientId, name: string, measurementUnit: string, amount: int)

  /** `IngredientInRecipeSerializer(many=True)`: the ingredient's id, name and unit, and the row's own amount. */
  function Present(items: seq<IngredientAmount>, ingredients: map<IngredientId, Ingredient>): seq<RowView>
    requires forall i :: 0 <= i < |items| ==> items[i].ingredient in ingredients
  {
    seq(|items|, i requires 0 <= i < |items| =>
      RowView(items[i].ingredient, ingredients[items[i].ingredient].name,
              ingredients[items[i].ingredient].unit, items[i].amount))
  }

  /** The payload a client builds from a shown recipe: each row's `id` and `amount`. */
  function Resubmit(views: seq<RowView>): seq<RawItem> {
    seq(|views|, i requires 0 <= i < |views| => RawItem(Some(views[i].id), Some(views[i].amount)))
  }

  /**
   * Showing stored rows and submitting them back parses to the same rows: the
   * view exposes under `id` exactly what the payload expects under `id`.
   */
  lemma ResubmitPresented(items: seq<IngredientAmount>, ingredients: map<IngredientId, Ingredient>)
    requires forall i :: 0 <= i < |items| ==> items[i].ingredient in ingredients && items[i].amount >= AmountMin
    ensures ParseItems(Resubmit(Present(items, ingredients)), ingredients) == Ok(items)
  {
    var raws := Resubmit(Present(items, ingredients));
    forall i | 0 <= i < |raws| ensures ParseItem(raws[i], ingredients) == Ok(items[i]) {
    }
    var r := ParseItems(raws, ingredients);
    assert r.Ok?;
    assert r.value == items;
  }
}

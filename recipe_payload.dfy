/**
 * What both layouts' recipe serializers do alike with a payload: check the
 * scalar fields, refuse an empty or repeating ingredient list, and turn the
 * provided scalar keys into the attributes `save` writes.
 */
module RecipePayload {
  import opened Base
  import opened Seqs
  import Text
  import Store

  /** A validated payload: the scalar attributes to write and, when the key was given, the ingredient items. */
  datatype Validated = Validated(attrs: seq<Attr>, items: Option<seq<IngredientAmount>>)

  /** The `min_value` of `cooking_time`. */
  const CookingTimeMin := 1

  /** `cooking_time`: below 1 is refused, anything else comes back unchanged. */
  function ValidateCookingTime(value: int): (r: Result<int>)
    ensures r.Ok? <==> value >= CookingTimeMin
    ensures r.Ok? ==> r.value == value
    ensures r.Err? ==> r.error == Invalid(CookingTimeBelowOne)
  {
    if value < CookingTimeMin then Err(Invalid(CookingTimeBelowOne)) else Ok(value)
  }

  /** The scalar keys present in the payload. */
  function Provided(p: Payload): set<Field> {
    set f: Field | Has(p, f)
  }

  predicate Has(p: Payload, f: Field) {
    match f
    case NameField => p.name.Some?
    case TextField => p.text.Some?
    case CookingTimeField => p.cookingTime.Some?
    case ImageField => p.image.Some?
  }

  /**
   * A present `name` or `text` that is empty once stripped: the model's
   * `CharField`s have no `blank=True`, so their serializer fields refuse it.
   */
  predicate IsBlank(p: Payload, f: Field) {
    match f
    case NameField => p.name.Some? && Text.Strip(p.name.value) == []
    case TextField => p.text.Some? && Text.Strip(p.text.value) == []
    case CookingTimeField => false
    case ImageField => false
  }

  /**
   * The scalar fields in declaration order (`image`, `name`, `text`,
   * `cooking_time`): a required field that is absent is refused, a present
   * `name` or `text` must not be blank, and a present `cooking_time` must be at
   * least 1.
   */
  function CheckScalars(p: Payload, required: set<Field>): (r: Outcome)
    ensures r == Done <==> && required <= Provided(p)
                           && !IsBlank(p, NameField) && !IsBlank(p, TextField)
                           && (p.cookingTime.Some? ==> p.cookingTime.value >= CookingTimeMin)
    ensures r.Failed? ==> || r.error == Invalid(CookingTimeBelowOne)
                          || (exists f :: f in required && f !in Provided(p) && r.error == Invalid(Required(f)))
                          || (exists f :: IsBlank(p, f) && r.error == Invalid(Blank(f)))
  {
    if ImageField in required && p.image.None? then Failed(Invalid(Required(ImageField)))
    else if NameField in required && p.name.None? then Failed(Invalid(Required(NameField)))
    else if IsBlank(p, NameField) then Failed(Invalid(Blank(NameField)))
    else if TextField in required && p.text.None? then Failed(Invalid(Required(TextField)))
    else if IsBlank(p, TextField) then Failed(Invalid(Blank(TextField)))
    else if p.cookingTime.None? then
      (if CookingTimeField in required then Failed(Invalid(Required(CookingTimeField))) else Done)
    else
      match ValidateCookingTime(p.cookingTime.value)
      case Err(e) => Failed(e)
      case Ok(_) => Done
  }

  /**
   * `validate_ingredients` of the api layout, and the first two checks of the
   * split layout's: an empty list is refused, a list naming an ingredient twice
   * (`len(ids) != len(set(ids))`) is refused, any other comes back unchanged.
   */
  function ValidateIngredientList(product: seq<IngredientAmount>): (r: Result<seq<IngredientAmount>>)
    ensures product == [] ==> r == Err(Invalid(IngredientsEmpty))
    ensures product != [] ==> (r.Ok? <==> Store.DistinctIngredients(product))
    ensures product != [] && r.Err? ==> r.error == Invalid(IngredientsNotUnique)
    ensures r.Ok? ==> r.value == product
  {
    if product == [] then Err(Invalid(IngredientsEmpty))
    else
      var ids := Store.IngredientIds(product);
      ElementsSize(ids);
      if |ids| != |Elements(ids)| then Err(Invalid(IngredientsNotUnique)) else Ok(product)
  }

  /** The value the payload provides for `f`, stripped as a `CharField` strips it, or `d` when the key is absent. */
  function ProvidedOr(p: Payload, f: Field, d: Store.FieldValue): Store.FieldValue {
    match f
    case NameField => if p.name.Some? then Store.Str(Text.Strip(p.name.value)) else d
    case TextField => if p.text.Some? then Store.Str(Text.Strip(p.text.value)) else d
    case CookingTimeField => if p.cookingTime.Some? then Store.Num(p.cookingTime.value) else d
    case ImageField => if p.image.Some? then Store.Str(p.image.value) else d
  }

  /** The declaration order of the scalar fields, which `validated_data` follows. */
  const FieldOrder: seq<Field> := [ImageField, NameField, TextField, CookingTimeField]

  /** The attribute a provided key becomes. */
  function AttrFor(p: Payload, f: Field): (a: Attr)
    requires Has(p, f)
    ensures Store.FieldOf(a) == f && forall d :: Store.ValueOf(a) == ProvidedOr(p, f, d)
  {
    match f
    case NameField => SetName(Text.Strip(p.name.value))
    case TextField => SetText(Text.Strip(p.text.value))
    case CookingTimeField => SetCookingTime(p.cookingTime.value)
    case ImageField => SetImage(p.image.value)
  }

  /** One attribute per provided key among `fields`, in the order of `fields`. */
  function AttrsOf(p: Payload, fields: seq<Field>): (attrs: seq<Attr>)
    ensures forall k :: 0 <= k < |attrs| ==> Store.FieldOf(attrs[k]) in fields
  {
    if fields == [] then []
    else (if Has(p, fields[0]) then [AttrFor(p, fields[0])] else []) + AttrsOf(p, fields[1..])
  }

  /** `validated_data` without `ingredients`: the provided scalar keys in field order. */
  function Attrs(p: Payload): seq<Attr> {
    AttrsOf(p, FieldOrder)
  }

  lemma FirstValueCons(a: Attr, rest: seq<Attr>, f: Field, d: Store.FieldValue)
    ensures Store.FirstValue([a] + rest, f, d) ==
            if Store.FieldOf(a) == f then Store.ValueOf(a) else Store.FirstValue(rest, f, d)
  {
    assert ([a] + rest)[1..] == rest;
  }

  lemma {:induction false} AttrsOfFields(p: Payload, fields: seq<Field>, f: Field, d: Store.FieldValue)
    requires Distinct(fields)
    ensures Store.DistinctFields(AttrsOf(p, fields))
    ensures Store.FirstValue(AttrsOf(p, fields), f, d) == if f in fields then ProvidedOr(p, f, d) else d
  {
    if fields != [] {
      var h := fields[0];
      var tail := fields[1..];
      assert Distinct(tail) by {
        forall i, j | 0 <= i < j < |tail| ensures tail[i] != tail[j] {
          assert tail[i] == fields[i + 1] && tail[j] == fields[j + 1];
        }
      }
      assert h !in tail by {
        forall k | 0 <= k < |tail| ensures tail[k] != h {
          assert tail[k] == fields[k + 1];
        }
      }
      AttrsOfFields(p, tail, f, d);
      var rest := AttrsOf(p, tail);
      if Has(p, h) {
        var a := AttrFor(p, h);
        var all := [a] + rest;
        FirstValueCons(a, rest, f, d);
        forall i, j | 0 <= i < j < |all| ensures Store.FieldOf(all[i]) != Store.FieldOf(all[j]) {
          if i == 0 {
            assert all[j] == rest[j - 1];
          } else {
            assert all[i] == rest[i - 1] && all[j] == rest[j - 1];
          }
        }
      } else {
        assert AttrsOf(p, fields) == rest;
      }
    }
  }

  /** The attributes name each provided key once and carry the provided value. */
  lemma AttrsFields(p: Payload, f: Field, d: Store.FieldValue)
    ensures Store.DistinctFields(Attrs(p))
    ensures Store.FirstValue(Attrs(p), f, d) == ProvidedOr(p, f, d)
  {
    AttrsOfFields(p, FieldOrder, f, d);
    assert f in FieldOrder by {
      match f
      case NameField => assert FieldOrder[1] == f;
      case TextField => assert FieldOrder[2] == f;
      case CookingTimeField => assert FieldOrder[3] == f;
      case ImageField => assert FieldOrder[0] == f;
    }
  }

  /**
   * `setattr` of every validated key: each provided field takes the provided
   * value, every other field keeps the stored one, the author and publication
   * date never change, and a validated payload keeps the cooking time at least
   * 1 and writes a non-empty name and text with no whitespace at either end.
   */
  lemma UpdatedRecipe(r: Recipe, p: Payload)
    ensures forall f :: Store.Get(Store.Patched(r, Attrs(p)), f) == ProvidedOr(p, f, Store.Get(r, f))
    ensures Store.Patched(r, Attrs(p)).author == r.author && Store.Patched(r, Attrs(p)).pubDate == r.pubDate
    ensures r.cookingTime >= CookingTimeMin && CheckScalars(p, {}) == Done ==>
              Store.Patched(r, Attrs(p)).cookingTime >= CookingTimeMin
    ensures CheckScalars(p, {}) == Done && p.name.Some? ==>
              var name := Store.Patched(r, Attrs(p)).name;
              name != [] && !Text.IsSpace(name[0]) && !Text.IsSpace(name[|name| - 1])
    ensures CheckScalars(p, {}) == Done && p.text.Some? ==>
              var text := Store.Patched(r, Attrs(p)).text;
              text != [] && !Text.IsSpace(text[0]) && !Text.IsSpace(text[|text| - 1])
  {
    forall f ensures Store.Get(Store.Patched(r, Attrs(p)), f) == ProvidedOr(p, f, Store.Get(r, f)) {
      AttrsFields(p, f, Store.Get(r, f));
      Store.PatchedFields(r, Attrs(p), f);
    }
    AttrsFields(p, NameField, Store.Get(r, NameField));
    Store.PatchedFields(r, Attrs(p), NameField);
    assert Store.Get(Store.Patched(r, Attrs(p)), CookingTimeField).n == Store.Patched(r, Attrs(p)).cookingTime;
    assert Store.Get(Store.Patched(r, Attrs(p)), NameField).s == Store.Patched(r, Attrs(p)).name;
    assert Store.Get(Store.Patched(r, Attrs(p)), TextField).s == Store.Patched(r, Attrs(p)).text;
  }
}

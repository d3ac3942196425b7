/** The ingredient table: field limits, the unique (name, unit) pair and the string form. */
module IngredientModel {
  import opened Base

  const NameMaxLength := 128
  const UnitMaxLength := 64

  /** Both fields are non-blank and within their `max_length`. */
  predicate WellFormed(i: Ingredient) {
    0 < |i.name| <= NameMaxLength && 0 < |i.unit| <= UnitMaxLength
  }

  /** No two ingredients share a (name, measurement_unit) pair. */
  ghost predicate UniqueNameUnit(ingredients: map<IngredientId, Ingredient>) {
    forall a, b :: a in ingredients && b in ingredients && a != b ==> ingredients[a] != ingredients[b]
  }

  /** The ingredient table's constraints. */
  ghost predicate Table(ingredients: map<IngredientId, Ingredient>) {
    (forall a :: a in ingredients ==> WellFormed(ingredients[a])) && UniqueNameUnit(ingredients)
  }

  /** `__str__`: `"{name}, {unit}."`. */
  function Str(i: Ingredient): (s: string)
    ensures |s| == |i.name| + |i.unit| + 3
    ensures s[..|i.name|] == i.name && s[|i.name|..] == ", " + i.unit + "."
  {
    i.name + ", " + i.unit + "."
  }

  /** The text after the last ", " of `s` (all of `s` when there is none). */
  function AfterLastComma(s: string): string
    decreases |s|
  {
    if |s| < 2 then s
    else if s[|s| - 2..] == ", " then []
    else AfterLastComma(s[..|s| - 1]) + [s[|s| - 1]]
  }

  lemma {:induction false} AfterLastCommaOfSuffix(p: string, u: string)
    requires ',' !in u
    ensures AfterLastComma(p + ", " + u) == u
    decreases |u|
  {
    var s := p + ", " + u;
    if u == [] {
      assert s[|s| - 2..] == ", ";
    } else {
      assert s[|s| - 2..] != ", " by {
        assert s[|s| - 2..][0] == s[|s| - 2];
        if |u| == 1 {
          assert s[|s| - 2] == ' ';
        } else {
          assert s[|s| - 2] == u[|u| - 2];
        }
      }
      assert s[..|s| - 1] == p + ", " + u[..|u| - 1];
      AfterLastCommaOfSuffix(p, u[..|u| - 1]);
      assert u == u[..|u| - 1] + [u[|u| - 1]];
    }
  }

  /**
   * The string form tells ingredients apart: two ingredients whose units contain
   * no comma and whose strings are equal are the same (name, unit) pair, so under
   * the uniqueness constraint they are the same row.
   */
  lemma StrInjective(a: Ingredient, b: Ingredient)
    requires ',' !in a.unit && ',' !in b.unit
    requires Str(a) == Str(b)
    ensures a == b
  {
    var sa := Str(a);
    assert sa[..|sa| - 1] == a.name + ", " + a.unit;
    assert sa[..|sa| - 1] == b.name + ", " + b.unit;
    AfterLastCommaOfSuffix(a.name, a.unit);
    AfterLastCommaOfSuffix(b.name, b.unit);
    assert a.unit == b.unit;
    assert |a.name| == |b.name|;
    assert a.name == sa[..|a.name|] == b.name;
  }
}

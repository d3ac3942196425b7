/**
 * The aggregation behind both `download_shopping_cart` views: the rows of the
 * recipes in a user's cart, joined with their ingredients, grouped by
 * (name, unit) with the amounts summed and ordered by name.
 */
module ShoppingList {
  import opened Base
  import opened Text

  /** A carted row joined with its ingredient: `ingredient__name`, `ingredient__measurement_unit`, `amount`. */
  datatype Product = Product(name: string, unit: string, amount: int)

  /** One group of the `values(name, unit).annotate(total_amount=Sum('amount'))` result. */
  datatype Entry = Entry(name: string, unit: string, total: int)

  function ProductKey(p: Product): (string, string) {
    (p.name, p.unit)
  }

  function Key(e: Entry): (string, string) {
    (e.name, e.unit)
  }

  /** A row the cart filter keeps (its recipe is in the user's cart) and the ingredient join finds. */
  predicate Carted(x: Row, ingredients: map<IngredientId, Ingredient>, carts: set<(UserId, RecipeId)>, user: UserId) {
    (user, x.recipe) in carts && x.ingredient in ingredients
  }

  /** The product a carted row reads as: its ingredient's name and unit, and its own amount. */
  function ProductOf(x: Row, ingredients: map<IngredientId, Ingredient>): Product
    requires x.ingredient in ingredients
  {
    Product(ingredients[x.ingredient].name, ingredients[x.ingredient].unit, x.amount)
  }

  /**
   * `RecipeIngredient.objects.filter(recipe__<cart>__user=user)` read through
   * the ingredient join, in table order: one product per carted row, and no
   * product that does not come from a carted row.
   */
  function CartedProducts(rows: seq<Row>, ingredients: map<IngredientId, Ingredient>,
                          carts: set<(UserId, RecipeId)>, user: UserId): (ps: seq<Product>)
    ensures |ps| <= |rows|
    ensures (forall k :: 0 <= k < |rows| ==> (user, rows[k].recipe) !in carts) ==> ps == []
    ensures forall k :: 0 <= k < |ps| ==> Ingredient(ps[k].name, ps[k].unit) in ingredients.Values
    ensures forall x :: x in rows && Carted(x, ingredients, carts, user) ==> ProductOf(x, ingredients) in ps
    ensures forall p :: p in ps ==> exists x :: x in rows && Carted(x, ingredients, carts, user) && p == ProductOf(x, ingredients)
  {
    if rows == [] then []
    else
      var x := rows[0];
      var rest := CartedProducts(rows[1..], ingredients, carts, user);
      assert forall y :: y in rows[1..] ==> y in rows;
      assert forall y :: y in rows ==> y == x || y in rows[1..];
      (if Carted(x, ingredients, carts, user) then [ProductOf(x, ingredients)] else []) + rest
  }

  /** The sum of `amount` over the carted rows whose ingredient is the (name, unit) pair `k`. */
  function RowTotal(rows: seq<Row>, ingredients: map<IngredientId, Ingredient>, carts: set<(UserId, RecipeId)>,
                    user: UserId, k: (string, string)): int
  {
    if rows == [] then 0
    else
      (if Carted(rows[0], ingredients, carts, user) && ProductKey(ProductOf(rows[0], ingredients)) == k
       then rows[0].amount else 0)
      + RowTotal(rows[1..], ingredients, carts, user, k)
  }

  /** The (name, unit) pairs of the ingredients of the carted rows. */
  function CartedKeys(rows: seq<Row>, ingredients: map<IngredientId, Ingredient>, carts: set<(UserId, RecipeId)>,
                      user: UserId): set<(string, string)>
  {
    set x | x in rows && Carted(x, ingredients, carts, user) :: ProductKey(ProductOf(x, ingredients))
  }

  /** Each entry's name is at most the next entry's name. */
  predicate Sorted(es: seq<Entry>) {
    forall i :: 0 <= i < |es| - 1 ==> LexLe(es[i].name, es[i + 1].name)
  }

  /** No (name, unit) group occurs twice. */
  predicate UniqueKeys(es: seq<Entry>) {
    forall i, j :: 0 <= i < j < |es| ==> Key(es[i]) != Key(es[j])
  }

  function Keys(es: seq<Entry>): set<(string, string)> {
    set e | e in es :: Key(e)
  }

  function ProductKeys(ps: seq<Product>): set<(string, string)> {
    set p | p in ps :: ProductKey(p)
  }

  /** The sum of the amounts of the products in group `k`. */
  function SumFor(ps: seq<Product>, k: (string, string)): int {
    if ps == [] then 0 else (if ProductKey(ps[0]) == k then ps[0].amount else 0) + SumFor(ps[1..], k)
  }

  /** The sum of the totals the entries give group `k`. */
  function TotalOf(es: seq<Entry>, k: (string, string)): int {
    if es == [] then 0 else (if Key(es[0]) == k then es[0].total else 0) + TotalOf(es[1..], k)
  }

  /** Adds one product to a name-ordered list of groups: into its group, or as a new group in name order. */
  function AddTo(es: seq<Entry>, p: Product): (r: seq<Entry>)
    ensures r != []
  {
    if es == [] then [Entry(p.name, p.unit, p.amount)]
    else if Key(es[0]) == ProductKey(p) then [es[0].(total := es[0].total + p.amount)] + es[1..]
    else if LexLt(p.name, es[0].name) then [Entry(p.name, p.unit, p.amount)] + es
    else [es[0]] + AddTo(es[1..], p)
  }

  /** The grouped, summed and name-ordered result. */
  function Aggregate(ps: seq<Product>): seq<Entry> {
    if ps == [] then [] else AddTo(Aggregate(ps[1..]), ps[0])
  }

  lemma SortedCons(e: Entry, rest: seq<Entry>)
    ensures Sorted([e] + rest) <==> Sorted(rest) && (rest != [] ==> LexLe(e.name, rest[0].name))
  {
    var all := [e] + rest;
    if Sorted(rest) && (rest != [] ==> LexLe(e.name, rest[0].name)) {
      forall i | 0 <= i < |all| - 1 ensures LexLe(all[i].name, all[i + 1].name) {
        if i > 0 {
          assert all[i] == rest[i - 1] && all[i + 1] == rest[i];
        }
      }
    }
    if Sorted(all) {
      forall i | 0 <= i < |rest| - 1 ensures LexLe(rest[i].name, rest[i + 1].name) {
        assert all[i + 1] == rest[i] && all[i + 2] == rest[i + 1];
      }
      if rest != [] {
        assert all[0] == e && all[1] == rest[0];
      }
    }
  }

  lemma UniqueCons(e: Entry, rest: seq<Entry>)
    ensures UniqueKeys([e] + rest) <==> UniqueKeys(rest) && Key(e) !in Keys(rest)
  {
    var all := [e] + rest;
    if UniqueKeys(rest) && Key(e) !in Keys(rest) {
      forall i, j | 0 <= i < j < |all| ensures Key(all[i]) != Key(all[j]) {
        assert all[j] == rest[j - 1] && all[j] in rest;
        if i > 0 {
          assert all[i] == rest[i - 1];
        }
      }
    }
    if UniqueKeys(all) {
      forall i, j | 0 <= i < j < |rest| ensures Key(rest[i]) != Key(rest[j]) {
        assert all[i + 1] == rest[i] && all[j + 1] == rest[j];
      }
      forall x | x in rest ensures Key(x) != Key(e) {
        var k :| 0 <= k < |rest| && rest[k] == x;
        assert all[0] == e && all[k + 1] == x;
      }
    }
  }

  lemma KeysCons(e: Entry, rest: seq<Entry>)
    ensures Keys([e] + rest) == {Key(e)} + Keys(rest)
  {
    var all := [e] + rest;
    forall x | x in all ensures x == e || x in rest {
      var k :| 0 <= k < |all| && all[k] == x;
      if k > 0 {
        assert all[k] == rest[k - 1];
      }
    }
  }

  /** In a name-ordered list, every name is at least the first one. */
  lemma {:induction false} SortedHeadLeast(es: seq<Entry>, i: nat)
    requires Sorted(es) && i < |es|
    ensures LexLe(es[0].name, es[i].name)
  {
    if i == 0 {
      LexLeReflexive(es[0].name);
    } else {
      SortedHeadLeast(es, i - 1);
      LexLeTransitive(es[0].name, es[i - 1].name, es[i].name);
    }
  }

  /** Adding a product keeps the list ordered by name and free of repeated groups. */
  lemma {:induction false} AddToOrdered(es: seq<Entry>, p: Product)
    requires Sorted(es) && UniqueKeys(es)
    ensures Sorted(AddTo(es, p)) && UniqueKeys(AddTo(es, p))
    ensures AddTo(es, p)[0].name == p.name || (es != [] && AddTo(es, p)[0].name == es[0].name)
  {
    if es != [] {
      var head := es[0];
      var rest := es[1..];
      assert es == [head] + rest;
      SortedCons(head, rest);
      UniqueCons(head, rest);
      AddToKeys(es, p);
      if Key(head) == ProductKey(p) {
        var merged := head.(total := head.total + p.amount);
        SortedCons(merged, rest);
        UniqueCons(merged, rest);
      } else if LexLt(p.name, head.name) {
        var single := Entry(p.name, p.unit, p.amount);
        LexLeTotal(p.name, head.name);
        SortedCons(single, es);
        UniqueCons(single, es);
        if ProductKey(p) in Keys(es) {
          var x :| x in es && Key(x) == ProductKey(p);
          var k :| 0 <= k < |es| && es[k] == x;
          SortedHeadLeast(es, k);
        }
      } else {
        AddToOrdered(rest, p);
        AddToKeys(rest, p);
        var tail := AddTo(rest, p);
        SortedCons(head, tail);
        UniqueCons(head, tail);
      }
    }
  }

  /** Adding a product adds its group to the groups present. */
  lemma {:induction false} AddToKeys(es: seq<Entry>, p: Product)
    ensures Keys(AddTo(es, p)) == Keys(es) + {ProductKey(p)}
  {
    if es != [] {
      var head := es[0];
      var rest := es[1..];
      assert es == [head] + rest;
      KeysCons(head, rest);
      if Key(head) == ProductKey(p) {
        KeysCons(head.(total := head.total + p.amount), rest);
      } else if LexLt(p.name, head.name) {
        KeysCons(Entry(p.name, p.unit, p.amount), es);
      } else {
        AddToKeys(rest, p);
        KeysCons(head, AddTo(rest, p));
      }
    } else {
      KeysCons(Entry(p.name, p.unit, p.amount), []);
      assert [Entry(p.name, p.unit, p.amount)] + [] == AddTo(es, p);
    }
  }

  /** Adding a product adds its amount to its group's total and changes no other group's. */
  lemma {:induction false} AddToTotal(es: seq<Entry>, p: Product, k: (string, string))
    ensures TotalOf(AddTo(es, p), k) == TotalOf(es, k) + (if k == ProductKey(p) then p.amount else 0)
  {
    if es != [] {
      var head := es[0];
      var rest := es[1..];
      if Key(head) == ProductKey(p) {
        var merged := head.(total := head.total + p.amount);
        assert ([merged] + rest)[1..] == rest;
      } else if LexLt(p.name, head.name) {
        var single := Entry(p.name, p.unit, p.amount);
        assert ([single] + es)[1..] == es;
      } else {
        AddToTotal(rest, p, k);
        var tail := AddTo(rest, p);
        assert ([head] + tail)[1..] == tail;
      }
    }
  }

  /** In a list without repeated groups, an entry's total is everything the list gives its group. */
  lemma {:induction false} TotalOfUnique(es: seq<Entry>, i: nat)
    requires UniqueKeys(es) && i < |es|
    ensures TotalOf(es, Key(es[i])) == es[i].total
  {
    var rest := es[1..];
    assert es == [es[0]] + rest;
    UniqueCons(es[0], rest);
    if i == 0 {
      assert Key(es[0]) !in Keys(rest);
      TotalOfAbsent(rest, Key(es[0]));
    } else {
      assert es[i] == rest[i - 1];
      TotalOfUnique(rest, i - 1);
      assert es[i] in rest;
    }
  }

  lemma {:induction false} TotalOfAbsent(es: seq<Entry>, k: (string, string))
    requires k !in Keys(es)
    ensures TotalOf(es, k) == 0
  {
    if es != [] {
      assert es[0] in es;
      assert Keys(es[1..]) <= Keys(es);
      TotalOfAbsent(es[1..], k);
    }
  }

  /**
   * The shopping list is ordered by name, has one entry per (name, unit) group
   * of the carted products and no other, each entry's total is the sum of its
   * group's amounts, and it is empty exactly when there is no carted product.
   */
  lemma {:induction false} AggregateCorrect(ps: seq<Product>)
    ensures Sorted(Aggregate(ps)) && UniqueKeys(Aggregate(ps))
    ensures Keys(Aggregate(ps)) == ProductKeys(ps)
    ensures forall k :: TotalOf(Aggregate(ps), k) == SumFor(ps, k)
    ensures forall i :: 0 <= i < |Aggregate(ps)| ==> Aggregate(ps)[i].total == SumFor(ps, Key(Aggregate(ps)[i]))
    ensures Aggregate(ps) == [] <==> ps == []
  {
    if ps != [] {
      AggregateCorrect(ps[1..]);
      AddToOrdered(Aggregate(ps[1..]), ps[0]);
      AddToKeys(Aggregate(ps[1..]), ps[0]);
      forall k ensures TotalOf(Aggregate(ps), k) == SumFor(ps, k) {
        AddToTotal(Aggregate(ps[1..]), ps[0], k);
      }
      assert ps == [ps[0]] + ps[1..];
      assert ProductKeys(ps) == {ProductKey(ps[0])} + ProductKeys(ps[1..]);
    }
    forall i | 0 <= i < |Aggregate(ps)| ensures Aggregate(ps)[i].total == SumFor(ps, Key(Aggregate(ps)[i])) {
      TotalOfUnique(Aggregate(ps), i);
    }
  }

  /** Every group of the list is the (name, unit) of some carted product. */
  lemma AggregateFromProducts(ps: seq<Product>)
    ensures forall e :: e in Aggregate(ps) ==> exists p :: p in ps && ProductKey(p) == Key(e)
  {
    AggregateCorrect(ps);
    forall e | e in Aggregate(ps) ensures exists p :: p in ps && ProductKey(p) == Key(e) {
      assert Key(e) in Keys(Aggregate(ps));
    }
  }

  /** Summing a group over the carted products is summing it over the carted rows. */
  lemma {:induction false} CartedTotals(rows: seq<Row>, ingredients: map<IngredientId, Ingredient>,
                                        carts: set<(UserId, RecipeId)>, user: UserId, k: (string, string))
    ensures SumFor(CartedProducts(rows, ingredients, carts, user), k) == RowTotal(rows, ingredients, carts, user, k)
  {
    if rows != [] {
      var rest := CartedProducts(rows[1..], ingredients, carts, user);
      CartedTotals(rows[1..], ingredients, carts, user, k);
      if Carted(rows[0], ingredients, carts, user) {
        var ps := [ProductOf(rows[0], ingredients)] + rest;
        assert CartedProducts(rows, ingredients, carts, user) == ps;
        assert ps[1..] == rest;
      } else {
        assert CartedProducts(rows, ingredients, carts, user) == rest;
      }
    }
  }

  /** The groups of the carted products are the (name, unit) pairs of the carted rows. */
  lemma CartedKeysOf(rows: seq<Row>, ingredients: map<IngredientId, Ingredient>, carts: set<(UserId, RecipeId)>, user: UserId)
    ensures ProductKeys(CartedProducts(rows, ingredients, carts, user)) == CartedKeys(rows, ingredients, carts, user)
  {
    var ps := CartedProducts(rows, ingredients, carts, user);
    forall k | k in ProductKeys(ps) ensures k in CartedKeys(rows, ingredients, carts, user) {
      var p :| p in ps && ProductKey(p) == k;
      var x :| x in rows && Carted(x, ingredients, carts, user) && p == ProductOf(x, ingredients);
    }
    forall k | k in CartedKeys(rows, ingredients, carts, user) ensures k in ProductKeys(ps) {
      var x :| x in rows && Carted(x, ingredients, carts, user) && k == ProductKey(ProductOf(x, ingredients));
      assert ProductOf(x, ingredients) in ps;
    }
  }

  /**
   * A user's shopping list: ordered by name, one entry per (name, unit) pair
   * of an ingredient of a recipe in the cart and no other, each entry's total
   * the sum of the amounts of the carted rows of that pair; empty exactly when
   * no carted row exists.
   */
  lemma CartAggregate(rows: seq<Row>, ingredients: map<IngredientId, Ingredient>, carts: set<(UserId, RecipeId)>, user: UserId)
    ensures Sorted(Aggregate(CartedProducts(rows, ingredients, carts, user)))
    ensures UniqueKeys(Aggregate(CartedProducts(rows, ingredients, carts, user)))
    ensures Keys(Aggregate(CartedProducts(rows, ingredients, carts, user))) == CartedKeys(rows, ingredients, carts, user)
    ensures forall i :: 0 <= i < |Aggregate(CartedProducts(rows, ingredients, carts, user))| ==>
              Aggregate(CartedProducts(rows, ingredients, carts, user))[i].total ==
              RowTotal(rows, ingredients, carts, user, Key(Aggregate(CartedProducts(rows, ingredients, carts, user))[i]))
    ensures Aggregate(CartedProducts(rows, ingredients, carts, user)) == [] <==>
              forall x :: x in rows ==> !Carted(x, ingredients, carts, user)
  {
    var ps := CartedProducts(rows, ingredients, carts, user);
    var es := Aggregate(ps);
    AggregateCorrect(ps);
    CartedKeysOf(rows, ingredients, carts, user);
    forall i | 0 <= i < |es| ensures es[i].total == RowTotal(rows, ingredients, carts, user, Key(es[i])) {
      CartedTotals(rows, ingredients, carts, user, Key(es[i]));
    }
    forall x | x in rows && Carted(x, ingredients, carts, user) ensures ps != [] {
      assert ProductOf(x, ingredients) in ps;
    }
    if ps != [] {
      assert ps[0] in ps;
    }
  }
}

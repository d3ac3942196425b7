/**
 * `RecipeFilter`, identical in both layouts: `author` keeps the recipes of one
 * author; `is_favorited` and `is_in_shopping_cart` apply the same three-way
 * rule to the favourite and cart tables. The query value is a decimal number.
 */
module RecipeFilters {
  import opened Base
  import Flags

  /** `filter(<list>__user=user)` (`inside`) or `exclude(<list>__user=user)` (not `inside`), in queryset order. */
  function Members(qs: seq<RecipeId>, links: set<(UserId, RecipeId)>, user: UserId, inside: bool): (r: seq<RecipeId>)
    ensures forall x :: x in r <==> x in qs && (((user, x) in links) == inside)
    ensures |r| <= |qs|
  {
    if qs == [] then []
    else (if ((user, qs[0]) in links) == inside then [qs[0]] else []) + Members(qs[1..], links, user, inside)
  }

  /**
   * `filter_is_favorited` (on the favourite table) and `filter_in_shopping_cart`
   * (on the cart table): an anonymous user gets nothing for 1 and everything
   * otherwise; a logged-in user gets the listed recipes for 1, the unlisted
   * ones for 0 and everything for any other value.
   */
  function FilterByList(qs: seq<RecipeId>, viewer: Viewer, links: set<(UserId, RecipeId)>, value: real): (r: seq<RecipeId>)
    ensures !viewer.LoggedIn? ==> r == (if value == 1.0 then [] else qs)
    ensures value != 0.0 && value != 1.0 ==> r == qs
    ensures viewer.LoggedIn? && value == 1.0 ==> forall x :: x in r <==> x in qs && Flags.InList(links, viewer, x)
    ensures viewer.LoggedIn? && value == 0.0 ==> forall x :: x in r <==> x in qs && !Flags.InList(links, viewer, x)
  {
    if !viewer.LoggedIn? then (if value == 1.0 then [] else qs)
    else if value == 1.0 then Members(qs, links, viewer.id, true)
    else if value == 0.0 then Members(qs, links, viewer.id, false)
    else qs
  }

  /** Value 1 and value 0 split the queryset between them: every recipe lands in exactly one, as often as before. */
  lemma {:induction false} MembersPartition(qs: seq<RecipeId>, links: set<(UserId, RecipeId)>, user: UserId)
    ensures multiset(Members(qs, links, user, true)) + multiset(Members(qs, links, user, false)) == multiset(qs)
  {
    if qs != [] {
      var x := qs[0];
      var tail := qs[1..];
      MembersPartition(tail, links, user);
      var a := Members(tail, links, user, true);
      var b := Members(tail, links, user, false);
      assert qs == [x] + tail;
      if (user, x) in links {
        assert Members(qs, links, user, true) == [x] + a;
        assert Members(qs, links, user, false) == b;
      } else {
        assert Members(qs, links, user, true) == a;
        assert Members(qs, links, user, false) == [x] + b;
      }
    }
  }

  /** For a logged-in user the two filter values partition the queryset. */
  lemma FilterPartition(qs: seq<RecipeId>, viewer: Viewer, links: set<(UserId, RecipeId)>)
    requires viewer.LoggedIn?
    ensures multiset(FilterByList(qs, viewer, links, 1.0)) + multiset(FilterByList(qs, viewer, links, 0.0)) == multiset(qs)
  {
    MembersPartition(qs, links, viewer.id);
  }

  /**
   * `int(value)` on the decimal the number filter cleans: the integer part,
   * truncated toward zero. The integer id column's lookup applies it to the
   * query value.
   */
  function Truncate(value: real): (t: int)
    ensures value >= 0.0 ==> t as real <= value < t as real + 1.0
    ensures value < 0.0 ==> t as real - 1.0 < value <= t as real
  {
    if value >= 0.0 then value.Floor else -((-value).Floor)
  }

  /**
   * `author = NumberFilter(field_name='author__id')`: the recipes whose author
   * id equals the value truncated to an integer, in queryset order.
   */
  function FilterAuthor(qs: seq<RecipeId>, recipes: map<RecipeId, Recipe>, value: real): (r: seq<RecipeId>)
    requires forall x :: x in qs ==> x in recipes
    ensures forall x :: x in r <==> x in qs && recipes[x].author == Truncate(value)
    ensures |r| <= |qs|
  {
    if qs == [] then []
    else (if recipes[qs[0]].author == Truncate(value) then [qs[0]] else []) + FilterAuthor(qs[1..], recipes, value)
  }

  /** A fractional value selects what its integer part selects: `?author=1.5` lists author 1's recipes. */
  lemma {:induction false} FilterAuthorTruncates(qs: seq<RecipeId>, recipes: map<RecipeId, Recipe>, value: real)
    requires forall x :: x in qs ==> x in recipes
    ensures FilterAuthor(qs, recipes, value) == FilterAuthor(qs, recipes, Truncate(value) as real)
  {
    assert Truncate(Truncate(value) as real) == Truncate(value);
    if qs != [] {
      FilterAuthorTruncates(qs[1..], recipes, value);
    }
  }

  /** A value of -1 or below matches no author, since ids are never negative. */
  lemma {:induction false} FilterAuthorNegative(qs: seq<RecipeId>, recipes: map<RecipeId, Recipe>, value: real)
    requires forall x :: x in qs ==> x in recipes
    requires value <= -1.0
    ensures FilterAuthor(qs, recipes, value) == []
  {
    if qs != [] {
      FilterAuthorNegative(qs[1..], recipes, value);
    }
  }
}

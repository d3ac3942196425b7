/**
 * How a queryset comes out of the database: the `Recipe` model orders by
 * `-pub_date`, so every recipe listing the core reads (an author's recipes, the
 * recipes in a cart) is the matching recipes, newest first; the api layout's
 * user model orders by `username`, so its subscription listing is the followed
 * authors by username.
 */
module Listing {
  import opened Base
  import opened Seqs
  import Text
  import Store

  /** The ids below `n` present in the table, in increasing order. */
  function TableIds(recipes: map<RecipeId, Recipe>, n: nat): (ids: seq<RecipeId>)
    ensures forall r :: r in ids <==> r < n && r in recipes
    ensures forall i, j :: 0 <= i < j < |ids| ==> ids[i] < ids[j]
  {
    if n == 0 then []
    else
      var below := TableIds(recipes, n - 1);
      assert forall i :: 0 <= i < |below| ==> below[i] in below;
      below + (if n - 1 in recipes then [n - 1] else [])
  }

  /** `filter(...)`: the ids that satisfy `keep`, in their order. */
  function Where(ids: seq<RecipeId>, keep: RecipeId -> bool): (r: seq<RecipeId>)
    ensures forall x :: x in r <==> x in ids && keep(x)
    ensures |r| <= |ids|
    ensures Distinct(ids) ==> Distinct(r)
  {
    if ids == [] then []
    else
      var rest := Where(ids[1..], keep);
      if keep(ids[0]) then
        assert Distinct(ids) ==> ids[0] !in ids[1..] by {
          if Distinct(ids) {
            forall k | 0 <= k < |ids[1..]| ensures ids[1..][k] != ids[0] {
              assert ids[1..][k] == ids[k + 1];
            }
          }
        }
        [ids[0]] + rest
      else rest
  }

  /** Newest first: publication dates never increase along the list. */
  ghost predicate NewestFirstOrder(ids: seq<RecipeId>, recipes: map<RecipeId, Recipe>)
    requires forall x :: x in ids ==> x in recipes
  {
    forall i, j :: 0 <= i < j < |ids| ==> recipes[ids[i]].pubDate >= recipes[ids[j]].pubDate
  }

  /** Puts `x` in front of the first recipe published strictly before it. */
  function InsertByDate(x: RecipeId, ids: seq<RecipeId>, recipes: map<RecipeId, Recipe>): (r: seq<RecipeId>)
    requires x in recipes && forall y :: y in ids ==> y in recipes
    ensures multiset(r) == multiset(ids) + multiset{x}
    ensures forall y :: y in r <==> y in ids || y == x
  {
    if ids == [] || recipes[x].pubDate >= recipes[ids[0]].pubDate then [x] + ids
    else
      assert ids == [ids[0]] + ids[1..];
      [ids[0]] + InsertByDate(x, ids[1..], recipes)
  }

  /** The ids ordered by `-pub_date`. */
  function NewestFirst(ids: seq<RecipeId>, recipes: map<RecipeId, Recipe>): (r: seq<RecipeId>)
    requires forall y :: y in ids ==> y in recipes
    ensures multiset(r) == multiset(ids)
    ensures forall y :: y in r <==> y in ids
  {
    if ids == [] then []
    else
      assert ids == [ids[0]] + ids[1..];
      InsertByDate(ids[0], NewestFirst(ids[1..], recipes), recipes)
  }

  /** Putting a recipe no older than any of an ordered list in front keeps it ordered. */
  lemma ConsOrdered(h: RecipeId, rest: seq<RecipeId>, recipes: map<RecipeId, Recipe>)
    requires h in recipes && forall y :: y in rest ==> y in recipes
    requires NewestFirstOrder(rest, recipes)
    requires forall y :: y in rest ==> recipes[h].pubDate >= recipes[y].pubDate
    ensures NewestFirstOrder([h] + rest, recipes)
  {
    var r := [h] + rest;
    forall i, j | 0 <= i < j < |r| ensures recipes[r[i]].pubDate >= recipes[r[j]].pubDate {
      assert r[j] == rest[j - 1];
      if i > 0 {
        assert r[i] == rest[i - 1];
      }
    }
  }

  /** The tail of an ordered list is ordered and no newer than its head. */
  lemma TailOrdered(ids: seq<RecipeId>, recipes: map<RecipeId, Recipe>)
    requires ids != [] && forall y :: y in ids ==> y in recipes
    requires NewestFirstOrder(ids, recipes)
    ensures NewestFirstOrder(ids[1..], recipes)
    ensures forall y :: y in ids[1..] ==> recipes[ids[0]].pubDate >= recipes[y].pubDate
  {
    var tail := ids[1..];
    forall i, j | 0 <= i < j < |tail| ensures recipes[tail[i]].pubDate >= recipes[tail[j]].pubDate {
      assert tail[i] == ids[i + 1] && tail[j] == ids[j + 1];
    }
    forall y | y in tail ensures recipes[ids[0]].pubDate >= recipes[y].pubDate {
      var k :| 0 <= k < |tail| && tail[k] == y;
      assert ids[k + 1] == y;
    }
  }

  lemma {:induction false} InsertByDateOrdered(x: RecipeId, ids: seq<RecipeId>, recipes: map<RecipeId, Recipe>)
    requires x in recipes && forall y :: y in ids ==> y in recipes
    requires NewestFirstOrder(ids, recipes)
    ensures NewestFirstOrder(InsertByDate(x, ids, recipes), recipes)
  {
    if ids == [] {
      ConsOrdered(x, ids, recipes);
    } else {
      TailOrdered(ids, recipes);
      var tail := ids[1..];
      if recipes[x].pubDate >= recipes[ids[0]].pubDate {
        assert ids == [ids[0]] + tail;
        ConsOrdered(x, ids, recipes);
      } else {
        InsertByDateOrdered(x, tail, recipes);
        ConsOrdered(ids[0], InsertByDate(x, tail, recipes), recipes);
      }
    }
  }

  /** The listing is the same recipes, each as often as before, newest first. */
  lemma {:induction false} NewestFirstSorted(ids: seq<RecipeId>, recipes: map<RecipeId, Recipe>)
    requires forall y :: y in ids ==> y in recipes
    ensures NewestFirstOrder(NewestFirst(ids, recipes), recipes)
    ensures multiset(NewestFirst(ids, recipes)) == multiset(ids)
    ensures Distinct(ids) ==> Distinct(NewestFirst(ids, recipes))
  {
    if ids != [] {
      NewestFirstSorted(ids[1..], recipes);
      InsertByDateOrdered(ids[0], NewestFirst(ids[1..], recipes), recipes);
    }
    if Distinct(ids) {
      DistinctPermutation(ids, NewestFirst(ids, recipes));
    }
  }

  /** A rearrangement of a list without repeats has no repeats. */
  lemma DistinctPermutation(a: seq<RecipeId>, b: seq<RecipeId>)
    requires Distinct(a) && multiset(a) == multiset(b)
    ensures Distinct(b)
  {
    forall i, j | 0 <= i < j < |b| ensures b[i] != b[j] {
      MultiplicityOfDistinct(a, b[i]);
      if b[i] == b[j] {
        TwoOccurrences(b, i, j);
      }
    }
  }

  lemma TwoOccurrences(s: seq<RecipeId>, i: nat, j: nat)
    requires i < j < |s| && s[i] == s[j]
    ensures multiset(s)[s[i]] >= 2
  {
    assert s == s[..i] + [s[i]] + s[i + 1..j] + [s[j]] + s[j + 1..];
  }

  lemma MultiplicityOfDistinct(s: seq<RecipeId>, x: RecipeId)
    requires Distinct(s)
    ensures multiset(s)[x] <= 1
  {
    if s != [] {
      assert s == [s[0]] + s[1..];
      assert Distinct(s[1..]) by {
        forall i, j | 0 <= i < j < |s[1..]| ensures s[1..][i] != s[1..][j] {
          assert s[1..][i] == s[i + 1] && s[1..][j] == s[j + 1];
        }
      }
      MultiplicityOfDistinct(s[1..], x);
      if s[0] == x {
        assert x !in s[1..] by {
          forall k | 0 <= k < |s[1..]| ensures s[1..][k] != x {
            assert s[1..][k] == s[k + 1];
          }
        }
      }
    }
  }

  /** `author.recipes.all()`: the author's recipes, newest first. */
  function AuthorRecipes(recipes: map<RecipeId, Recipe>, nextId: nat, author: UserId): (r: seq<RecipeId>)
    ensures forall x :: x in r <==> x < nextId && x in recipes && recipes[x].author == author
  {
    var ids := Where(TableIds(recipes, nextId), x => x in recipes && recipes[x].author == author);
    NewestFirst(ids, recipes)
  }

  /** `Recipe.objects.filter(<cart>__user=user).distinct()`: the recipes in the user's cart, newest first. */
  function CartRecipes(recipes: map<RecipeId, Recipe>, nextId: nat, carts: set<(UserId, RecipeId)>, user: UserId): (r: seq<RecipeId>)
    ensures forall x :: x in r <==> x < nextId && x in recipes && (user, x) in carts
  {
    var ids := Where(TableIds(recipes, nextId), x => x in recipes && (user, x) in carts);
    NewestFirst(ids, recipes)
  }

  /** Both listings hold each matching recipe once, newest first. */
  lemma ListingsOrdered(recipes: map<RecipeId, Recipe>, nextId: nat, carts: set<(UserId, RecipeId)>, user: UserId)
    ensures Distinct(AuthorRecipes(recipes, nextId, user))
    ensures NewestFirstOrder(AuthorRecipes(recipes, nextId, user), recipes)
    ensures Distinct(CartRecipes(recipes, nextId, carts, user))
    ensures NewestFirstOrder(CartRecipes(recipes, nextId, carts, user), recipes)
  {
    var t := TableIds(recipes, nextId);
    assert Distinct(t) by {
      forall i, j | 0 <= i < j < |t| ensures t[i] != t[j] {
      }
    }
    NewestFirstSorted(Where(t, x => x in recipes && recipes[x].author == user), recipes);
    NewestFirstSorted(Where(t, x => x in recipes && (user, x) in carts), recipes);
  }

  // ---------------------------------------------------------------- users by username

  /** Every id names a user, and the usernames come in `ordering = ('username',)` order. */
  ghost predicate ByUsername(ids: seq<UserId>, users: map<UserId, User>) {
    && (forall i :: 0 <= i < |ids| ==> ids[i] in users)
    && (forall i, j :: 0 <= i < j < |ids| ==> Text.LexLe(users[ids[i]].username, users[ids[j]].username))
  }

  /** A non-empty set of users has one whose username comes first. */
  lemma {:induction false} FirstByUsername(ids: set<UserId>, users: map<UserId, User>)
    requires ids != {} && ids <= users.Keys
    ensures exists a :: a in ids && forall b :: b in ids ==> Text.LexLe(users[a].username, users[b].username)
  {
    var x :| x in ids;
    var rest := ids - {x};
    if rest == {} {
      Text.LexLeReflexive(users[x].username);
      assert ids == rest + {x};
    } else {
      FirstByUsername(rest, users);
      var m :| m in rest && forall b :: b in rest ==> Text.LexLe(users[m].username, users[b].username);
      Text.LexLeTotal(users[x].username, users[m].username);
      if Text.LexLe(users[x].username, users[m].username) {
        Text.LexLeReflexive(users[x].username);
        forall b | b in ids ensures Text.LexLe(users[x].username, users[b].username) {
          if b != x {
            Text.LexLeTransitive(users[x].username, users[m].username, users[b].username);
          }
        }
      } else {
        forall b | b in ids ensures Text.LexLe(users[m].username, users[b].username) {
        }
      }
    }
  }

  /** The users of `ids`, each once, in username order. */
  ghost function SortByUsername(ids: set<UserId>, users: map<UserId, User>): (s: seq<UserId>)
    requires ids <= users.Keys
    ensures forall a :: a in s <==> a in ids
    ensures Distinct(s) && ByUsername(s, users)
    decreases ids
  {
    if ids == {} then []
    else
      FirstByUsername(ids, users);
      var a :| a in ids && forall b :: b in ids ==> Text.LexLe(users[a].username, users[b].username);
      var rest := SortByUsername(ids - {a}, users);
      assert forall k :: 0 <= k < |rest| ==> rest[k] in ids - {a};
      [a] + rest
  }

  /**
   * `list_subscriptions` of the api layout, `User.objects.filter(authors__user=user)`:
   * the authors the user follows, each once, ordered by username.
   */
  ghost function Subscriptions(subs: set<(UserId, UserId)>, users: map<UserId, User>, user: UserId): (authors: seq<UserId>)
    requires Store.SubscriptionTable(subs, users)
    ensures forall a :: a in authors <==> (user, a) in subs
    ensures Distinct(authors) && ByUsername(authors, users)
  {
    SortByUsername(Store.Followed(subs, user), users)
  }

  /**
   * With usernames unique, as the user table declares, the username order
   * leaves no choice: two listings of the same users are the same sequence.
   */
  lemma {:induction false} ByUsernameUnique(s: seq<UserId>, t: seq<UserId>, users: map<UserId, User>)
    requires Store.UserTable(users)
    requires Distinct(s) && ByUsername(s, users) && Distinct(t) && ByUsername(t, users)
    requires forall a :: a in s <==> a in t
    ensures s == t
  {
    ElementsSize(s);
    ElementsSize(t);
    assert Elements(s) == Elements(t);
    if s != [] {
      var a, b := s[0], t[0];
      assert a in t && b in s;
      var i :| 0 <= i < |t| && t[i] == a;
      var j :| 0 <= j < |s| && s[j] == b;
      assert Text.LexLe(users[b].username, users[a].username) by {
        if i > 0 {
        } else {
          Text.LexLeReflexive(users[a].username);
        }
      }
      assert Text.LexLe(users[a].username, users[b].username) by {
        if j > 0 {
        } else {
          Text.LexLeReflexive(users[b].username);
        }
      }
      Text.LexLeAntisymmetric(users[a].username, users[b].username);
      assert a == b;
      var s', t' := s[1..], t[1..];
      forall x ensures x in s' <==> x in t' {
        if x in s' {
          var k :| 0 <= k < |s'| && s'[k] == x;
          assert s[k + 1] == x && x != a;
          assert x in s;
          var m :| 0 <= m < |t| && t[m] == x;
          assert m != 0 && t'[m - 1] == x;
        }
        if x in t' {
          var k :| 0 <= k < |t'| && t'[k] == x;
          assert t[k + 1] == x && x != b;
          assert x in t;
          var m :| 0 <= m < |s| && s[m] == x;
          assert m != 0 && s'[m - 1] == x;
        }
      }
      assert Distinct(s') && ByUsername(s', users) by {
        forall k | 0 <= k < |s'| ensures s'[k] == s[k + 1] {}
      }
      assert Distinct(t') && ByUsername(t', users) by {
        forall k | 0 <= k < |t'| ensures t'[k] == t[k + 1] {}
      }
      ByUsernameUnique(s', t', users);
      assert s == [a] + s' && t == [b] + t';
    }
  }
}

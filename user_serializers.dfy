/**
 * The user-facing serializers: the registration validators of
 * `CreateUserSerializer` and `get_recipes`, which both layouts' subscription
 * serializers use to cut an author's recipe list to `recipes_limit`.
 */
module UserSerializers {
  import opened Base
  import opened Text
  import Store
  import Listing

  /** The length bound of the three name validators. */
  const NameMaxLength := 150

  /**
   * `validate_username`: longer than 150 characters is refused, then a name
   * another user already has is refused. The lower bound in the source compares
   * a length with 0 and so never refuses anything.
   */
  function ValidateUsername(value: string, users: map<UserId, User>): (r: Result<string>)
    ensures r.Ok? <==> |value| <= NameMaxLength && forall u :: u in users ==> users[u].username != value
    ensures r.Ok? ==> r.value == value
    ensures r.Err? ==> (r.error == Invalid(UsernameTooLong) <==> |value| > NameMaxLength)
    ensures r.Err? ==> r.error in {Invalid(UsernameTooLong), Invalid(UsernameTaken)}
  {
    if |value| > NameMaxLength || |value| < 0 then Err(Invalid(UsernameTooLong))
    else if exists u :: u in users && users[u].username == value then Err(Invalid(UsernameTaken))
    else Ok(value)
  }

  /** `validate_first_name` and `validate_last_name`: longer than 150 characters is refused. */
  function ValidateName(value: string): (r: Result<string>)
    ensures r.Ok? <==> |value| <= NameMaxLength
    ensures r.Ok? ==> r.value == value
    ensures r.Err? ==> r.error == Invalid(NameTooLong)
  {
    if |value| > NameMaxLength || |value| < 0 then Err(Invalid(NameTooLong)) else Ok(value)
  }

  /** The empty username passes this validator as long as nobody has it. */
  lemma EmptyUsernameAccepted(users: map<UserId, User>)
    requires forall u :: u in users ==> users[u].username != ""
    ensures ValidateUsername("", users) == Ok("")
  {
  }

  /**
   * A username the validator accepts can be stored next to the existing users
   * without breaking the table's length and uniqueness constraints, given an
   * email nobody has.
   */
  lemma AcceptedUsernameFits(users: map<UserId, User>, id: UserId, value: string, email: string, first: string, last: string)
    requires Store.UserTable(users) && id !in users
    requires forall u :: u in users ==> users[u].email != email
    requires ValidateUsername(value, users).Ok?
    ensures Store.UserTable(users[id := User(value, email, first, last)])
  {
  }

  /**
   * `get_recipes`: the author's recipes, cut to the first `int(limit)` when
   * `recipes_limit` is given as a non-empty string of digits, and all of them
   * otherwise (a slice past the end stops at the end).
   */
  function GetRecipes(listing: seq<RecipeId>, limit: Option<string>): (r: seq<RecipeId>)
    ensures r <= listing
    ensures limit.Some? && IsDigitString(limit.value) ==>
              |r| == if ParseNat(limit.value) < |listing| then ParseNat(limit.value) else |listing|
    ensures !(limit.Some? && IsDigitString(limit.value)) ==> r == listing
  {
    if limit.Some? && limit.value != [] && IsDigitString(limit.value) then
      var n := ParseNat(limit.value);
      if n < |listing| then listing[..n] else listing
    else listing
  }

  /** Asking for `str(n)` recipes gives exactly the first `n` (all of them when there are fewer). */
  lemma GetRecipesOfNumber(listing: seq<RecipeId>, n: nat)
    ensures GetRecipes(listing, Some(NatToString(n))) == if n < |listing| then listing[..n] else listing
  {
    ParseNatToString(n);
  }

  /**
   * The cut list of an author holds the newest of their recipes: every recipe
   * it leaves out was published no later than every recipe it keeps.
   */
  lemma LimitKeepsNewest(recipes: map<RecipeId, Recipe>, nextId: nat, author: UserId, limit: Option<string>)
    ensures forall a, b :: a in GetRecipes(Listing.AuthorRecipes(recipes, nextId, author), limit) &&
                           b in Listing.AuthorRecipes(recipes, nextId, author) &&
                           b !in GetRecipes(Listing.AuthorRecipes(recipes, nextId, author), limit)
                           ==> recipes[a].pubDate >= recipes[b].pubDate
  {
    var all := Listing.AuthorRecipes(recipes, nextId, author);
    var kept := GetRecipes(all, limit);
    Listing.ListingsOrdered(recipes, nextId, {}, author);
    forall a, b | a in kept && b in all && b !in kept ensures recipes[a].pubDate >= recipes[b].pubDate {
      var i :| 0 <= i < |kept| && kept[i] == a;
      var j :| 0 <= j < |all| && all[j] == b;
      assert all[i] == a;
      assert j >= |kept| by {
        assert forall k :: 0 <= k < |kept| ==> all[k] == kept[k] && kept[k] in kept;
      }
    }
  }
}

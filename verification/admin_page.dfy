/**
 * `src/pages/AdminPage.tsx`: the admin's page. Its access guard, the user
 * search, the selection of a result and the three role buttons.
 */
module AdminPage {
  import opened Common
  import opened Text
  import opened Ordering
  import opened Schema
  import opened Supabase

  /**
   * The page shows its controls only to a signed-in admin. A profile without a
   * role counts as a plain user and is turned away.
   */
  predicate Admits(user: Option<UserProfile>): (ok: bool)
    ensures ok <==> user.Some? && RoleOf(user.value) == Admin
  {
    user.Some? && user.value.role == Some(Admin)
  }

  /** The position of a role's button on the card. */
  function ButtonIndex(role: Role): (i: nat)
    ensures i < 3
  {
    match role
    case User => 0
    case Editor => 1
    case Admin => 2
  }

  /**
   * The role buttons of the card of the selected user, as the `(userId, role)`
   * each passes to `handleSetRole`: one button per role, all for that user's id.
   */
  function RoleButtons(selected: Option<UserProfile>): (r: seq<(int, Role)>)
    ensures selected.None? ==> r == []
    ensures selected.Some? ==> |r| == 3
    ensures forall b :: b in r ==> selected.Some? && b.0 == selected.value.id
    ensures selected.Some? ==> forall role: Role :: r[ButtonIndex(role)] == (selected.value.id, role)
  {
    if selected.None? then []
    else
      var id := selected.value.id;
      [(id, User), (id, Editor), (id, Admin)]
  }

  /** The page's search state. */
  class AdminSearch {
    var searchQuery: string
    var searchResults: seq<UserProfile>
    var selectedUser: Option<UserProfile>

    /** A result list never holds more than a search returns. */
    ghost predicate Valid()
      reads this
    {
      |searchResults| <= SearchLimit
    }

    constructor ()
      ensures Valid()
      ensures searchQuery == "" && searchResults == [] && selectedUser.None?
    {
      searchQuery, searchResults, selectedUser := "", [], None;
    }

    /** The search input's `onChange`. */
    method SetQuery(q: string)
      requires Valid()
      modifies this`searchQuery
      ensures Valid() && searchQuery == q
    {
      searchQuery := q;
    }

    /**
     * `handleSearch`: a blank query does nothing; otherwise the query, untrimmed,
     * goes to the search and a successful answer replaces the results.
     */
    method HandleSearch(store: Store, net: Transport)
      requires Valid()
      modifies this`searchResults
      ensures Valid()
      ensures IsBlank(searchQuery) || net.Failed? ==> searchResults == old(searchResults)
      ensures !IsBlank(searchQuery) && net.Delivered? ==>
        searchResults == Take(Filter(store.profiles, QueryMatcher(searchQuery)), SearchLimit)
    {
      if IsBlank(searchQuery) {
        return;
      }
      var r := store.FindUserByUsernameOrId(searchQuery, net);
      if r.Ok? {
        searchResults := r.value;
      }
    }

    /** A click on a search result selects it. */
    method SelectResult(p: UserProfile)
      requires Valid() && p in searchResults
      modifies this`selectedUser
      ensures Valid() && selectedUser == Some(p)
    {
      selectedUser := Some(p);
    }

    /**
     * `handleSetRole(userId, role)`: a successful write clears the selection,
     * the query and the results; a failed one leaves all three as they were.
     */
    method HandleSetRole(store: Store, userId: int, role: Role, net: Transport)
      requires Valid() && store.Valid()
      modifies this`selectedUser, this`searchQuery, this`searchResults, store`profiles
      ensures Valid() && store.Valid()
      ensures net.Delivered? && FindProfile(old(store.profiles), userId).Some? ==>
        && store.profiles == SetRole(old(store.profiles), userId, role)
        && selectedUser.None? && searchQuery == "" && searchResults == []
      ensures net.Failed? || FindProfile(old(store.profiles), userId).None? ==>
        && store.profiles == old(store.profiles)
        && selectedUser == old(selectedUser) && searchQuery == old(searchQuery)
        && searchResults == old(searchResults)
    {
      var r := store.SetUserRole(userId, role, net);
      if r.Err? {
        return;
      }
      selectedUser, searchQuery, searchResults := None, "", [];
    }
  }

  /**
   * The admin's path to promoting a known user: searching for the user's id in
   * decimal finds that user alone, and the role write that follows is what a
   * later role read of that id returns.
   */
  lemma {:induction false} FindThenSetRole(rows: seq<UserProfile>, p: UserProfile, role: Role)
    requires DistinctKeys(rows, ProfileId)
    requires p in rows && p.id >= 0
    ensures Take(Filter(rows, QueryMatcher(DecimalString(p.id))), SearchLimit) == [p]
    ensures FindProfile(SetRole(rows, p.id, role), p.id) == Some(p.(role := Some(role)))
  {
    SearchByDecimalId(rows, p);
    var k :| 0 <= k < |rows| && rows[k] == p;
    assert FindProfile(rows, p.id) == Some(p) by {
      var f := FindProfile(rows, p.id);
      assert f.Some?;
      var j :| 0 <= j < |rows| && rows[j] == f.value;
      assert j == k;
    }
    RoleReadAfterWrite(rows, p.id, role);
  }
}

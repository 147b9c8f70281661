/**
 * `src/components/BottomNavigation.tsx`: the tab bar. Which tabs a user sees,
 * derived from the role column of their profile, and where each tab leads.
 */
module BottomNavigation {
  import opened Common
  import opened Schema
  import Supabase
  import EditorPage
  import AdminPage

  datatype Tab = HomeTab | EditorTab | AdminTab

  /** The order the tabs are laid out in. */
  function Rank(t: Tab): nat
  {
    match t
    case HomeTab => 0
    case EditorTab => 1
    case AdminTab => 2
  }

  /** `canEdit`: the role column reads 'editor' or 'admin'. */
  predicate CanEdit(p: UserProfile)
  {
    p.role == Some(Editor) || p.role == Some(Admin)
  }

  /**
   * The tab list of a signed-in user: home always and first, editor for
   * editors and admins, admin for admins, in that order and without repeats.
   */
  function Tabs(p: UserProfile): (tabs: seq<Tab>)
    ensures 1 <= |tabs| <= 3 && tabs[0] == HomeTab
    ensures EditorTab in tabs <==> p.role == Some(Editor) || p.role == Some(Admin)
    ensures AdminTab in tabs <==> p.role == Some(Admin)
    ensures forall i, j :: 0 <= i < j < |tabs| ==> Rank(tabs[i]) < Rank(tabs[j])
  {
    [HomeTab] + (if CanEdit(p) then [EditorTab] else []) + (if p.role == Some(Admin) then [AdminTab] else [])
  }

  /** The three possible bars, by role: a profile without a role gets the plain user's. */
  lemma TabsByRole(p: UserProfile)
    ensures RoleOf(p) == User ==> Tabs(p) == [HomeTab]
    ensures RoleOf(p) == Editor ==> Tabs(p) == [HomeTab, EditorTab]
    ensures RoleOf(p) == Admin ==> Tabs(p) == [HomeTab, EditorTab, AdminTab]
  {
  }

  /** What the component renders: nothing without a user, otherwise the bar. */
  function Render(user: Option<UserProfile>): (r: Option<seq<Tab>>)
    ensures r.None? <==> user.None?
    ensures r.Some? ==> r.value == Tabs(user.value)
  {
    if user.None? then None else Some(Tabs(user.value))
  }

  /** The route of each tab. */
  function Route(t: Tab): (route: string)
    ensures route in {"/", "/editor", "/admin"}
  {
    match t
    case HomeTab => "/"
    case EditorTab => "/editor"
    case AdminTab => "/admin"
  }

  /** Different tabs lead to different pages. */
  lemma RouteInjective(a: Tab, b: Tab)
    requires Route(a) == Route(b)
    ensures a == b
  {
  }

  /** `handleChange(index)`: the tab reported to `onTabChange`, and the route navigated to. */
  function HandleChange(tabs: seq<Tab>, index: nat): (r: (Tab, string))
    requires index < |tabs|
    ensures r.0 == tabs[index]
    ensures r.1 == "/" <==> tabs[index] == HomeTab
    ensures r.1 == "/editor" <==> tabs[index] == EditorTab
    ensures r.1 == "/admin" <==> tabs[index] == AdminTab
  {
    (tabs[index], Route(tabs[index]))
  }

  /** The page a route shows lets the user in. */
  predicate PageAdmits(route: string, p: UserProfile)
  {
    || route == "/"
    || (route == "/editor" && EditorPage.Admits(Some(p)))
    || (route == "/admin" && AdminPage.Admits(Some(p)))
  }

  /**
   * The bar and the page guards agree: every tab a user is shown leads to a
   * page that lets them in, and every guarded page that would let them in has
   * its tab.
   */
  lemma {:induction false} TabsMatchGuards(p: UserProfile)
    ensures forall i :: 0 <= i < |Tabs(p)| ==> PageAdmits(HandleChange(Tabs(p), i).1, p)
    ensures EditorPage.Admits(Some(p)) <==> EditorTab in Tabs(p)
    ensures AdminPage.Admits(Some(p)) <==> AdminTab in Tabs(p)
  {
    forall i | 0 <= i < |Tabs(p)| ensures PageAdmits(HandleChange(Tabs(p), i).1, p) {
      var t := Tabs(p)[i];
      assert t in Tabs(p);
    }
  }

  /** A user signing in for the first time sees only the home tab and is kept out of both guarded pages. */
  lemma NewcomerSeesHomeOnly(tg: TelegramUser, now: int)
    ensures Tabs(Supabase.NewProfile(tg, now)) == [HomeTab]
    ensures !EditorPage.Admits(Some(Supabase.NewProfile(tg, now)))
    ensures !AdminPage.Admits(Some(Supabase.NewProfile(tg, now)))
  {
  }
}

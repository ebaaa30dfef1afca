// Who sees what: the route guard (src/components/auth/protected-route.tsx),
// the sidebar's role filter (src/components/layout/sidebar-nav.tsx) and the
// signed-in user's card at the foot of the sidebar
// (src/components/layout/main-layout.tsx).

module Access {
  import opened Basics
  import opened Model
  import opened Seqs
  import opened Auth
  import opened Users

  // ---------------------------------------------------------------------
  // The route guard

  datatype RouteView = Placeholder | Redirect(path: string) | Children

  /** ProtectedRoute: the loading placeholder first, then the login page
      for a visitor, then the dashboard for a non-administrator on an
      administrators' route, and otherwise the page itself. `adminOnly` is
      the optional prop, absent meaning false. */
  function ProtectedRoute(isLoading: bool, isAuthenticated: bool, isAdmin: bool, adminOnly: Option<bool>): (v: RouteView)
    ensures isLoading ==> v == Placeholder
    ensures !isLoading && !isAuthenticated ==> v == Redirect("/")
    ensures v == Redirect("/dashboard") <==> !isLoading && isAuthenticated && adminOnly == Some(true) && !isAdmin
    ensures v == Children <==> !isLoading && isAuthenticated && (adminOnly != Some(true) || isAdmin)
  {
    if isLoading then Placeholder
    else if !isAuthenticated then Redirect("/")
    else if adminOnly.GetOr(false) && !isAdmin then Redirect("/dashboard")
    else Children
  }

  /** With the context's own flags: a page is shown exactly to a signed-in
      user once loading is over, and an administrators' page only to an
      administrator, who is never redirected. Behind the guard, the users
      page's own gate always lets the user through. */
  lemma GuardForUser(isLoading: bool, user: Option<User>, adminOnly: Option<bool>)
    ensures ProtectedRoute(isLoading, IsAuthenticated(user), IsAdmin(user), adminOnly) == Children <==>
      !isLoading && user.Some? && (adminOnly != Some(true) || user.value.role == Admin)
    ensures !isLoading && IsAdmin(user) ==> ProtectedRoute(isLoading, IsAuthenticated(user), IsAdmin(user), adminOnly) == Children
    ensures ProtectedRoute(isLoading, IsAuthenticated(user), IsAdmin(user), Some(true)) == Children ==> UsersPage(user) == UserList
  {
  }

  // ---------------------------------------------------------------------
  // The sidebar

  datatype NavItem = NavItem(title: string, href: string, requiredRole: Option<Role>)

  const NavItems: seq<NavItem> := [
    NavItem("Dashboard", "/dashboard", None),
    NavItem("Registro de Ponto", "/registro-ponto", None),
    NavItem("Meus Relat\U{00F3}rios", "/relatorios", None),
    NavItem("Escalas & Hor\U{00E1}rios", "/escalas", None),
    NavItem("Usu\U{00E1}rios", "/usuarios", Some(Admin))
  ]

  /** The filter's test for one item. */
  function Shown(isAdmin: bool, isManager: bool): NavItem -> bool {
    (item: NavItem) =>
      if item.requiredRole == Some(Admin) then isAdmin
      else if item.requiredRole == Some(Manager) then isManager
      else true
  }

  /** filteredNavItems: an item requiring the administrator role is shown
      iff isAdmin, one requiring the manager role iff isManager, any other
      always. */
  function FilteredNav(isAdmin: bool, isManager: bool): (r: seq<NavItem>)
    ensures forall it :: it in r <==>
      it in NavItems && (it.requiredRole == Some(Admin) ==> isAdmin) && (it.requiredRole == Some(Manager) ==> isManager)
  {
    FilterMembers(NavItems, Shown(isAdmin, isManager));
    Filter(NavItems, Shown(isAdmin, isManager))
  }

  /** The menu a user sees keeps the items' order; an administrator sees all
      five, anyone else the first four; and since no item asks for the
      manager role, the manager flag changes nothing. */
  lemma NavForUser(user: Option<User>, otherManagerFlag: bool)
    ensures IsSubsequence(FilteredNav(IsAdmin(user), IsManager(user)), NavItems)
    ensures IsAdmin(user) ==> FilteredNav(IsAdmin(user), IsManager(user)) == NavItems
    ensures !IsAdmin(user) ==> FilteredNav(IsAdmin(user), IsManager(user)) == NavItems[..4]
    ensures FilteredNav(IsAdmin(user), IsManager(user)) == FilteredNav(IsAdmin(user), otherManagerFlag)
  {
    var a, m := IsAdmin(user), IsManager(user);
    var first := NavItems[..4];
    FilterIsSubsequence(NavItems, Shown(a, m));
    assert NavItems[..|NavItems| - 1] == first && NavItems[|NavItems| - 1].requiredRole == Some(Admin);
    FirstItemsOpen(a, m);
    FirstItemsOpen(a, otherManagerFlag);
  }

  /** The first four items ask for no role, so the filter keeps all four. */
  lemma FirstItemsOpen(isAdmin: bool, isManager: bool)
    ensures Filter(NavItems[..4], Shown(isAdmin, isManager)) == NavItems[..4]
  {
    var first := NavItems[..4];
    assert forall i :: 0 <= i < |first| ==> first[i].requiredRole == None;
    FilterAll(first, Shown(isAdmin, isManager));
  }

  // ---------------------------------------------------------------------
  // The sidebar's user card

  /** The role line of the card, a nested conditional on the role. */
  function CardRoleLabel(r: Role): string {
    if r == Admin then "Administrador" else if r == Manager then "Gerente" else "Funcion\U{00E1}rio"
  }

  datatype UserCard = UserCard(initials: string, name: string, roleLabel: string)

  /** The card is shown only to a signed-in user; its initials and role line
      are the ones the users page shows for that user. */
  function SidebarCard(user: Option<User>): (c: Option<UserCard>)
    ensures c.Some? <==> user.Some?
    ensures c.Some? ==> c.value.initials == GetInitials(user.value.name) && c.value.name == user.value.name
    ensures c.Some? ==> c.value.roleLabel == RoleLabel(RoleName(user.value.role))
  {
    if user.None? then None
    else Some(UserCard(GetInitials(user.value.name), user.value.name, CardRoleLabel(user.value.role)))
  }
}

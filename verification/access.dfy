/** Client-side access control: the stored session, the route table and its
    `ProtectedRoute` guard (frontend/src/App.jsx), the sidebar menu
    (frontend/src/components/Sidebar.jsx), the landing page after login
    (frontend/src/pages/Login.jsx) and the parts of the Orders, Customers
    and Designs pages shown only to administrators. */
module Access {
  import opened Wrappers
  import opened Records
  import opened Seqs
  import Server

  /** What login stores under "user": the server's answer. */
  datatype Session = Session(username: string, role: Role, id: Id)

  datatype Page =
    | LoginPage | DashboardPage | OrdersPage | AddOrderPage
    | SalesPage | CustomersPage | DesignsPage | AddDesignPage
  {
    function Path(): string {
      match this
      case LoginPage => "/"
      case DashboardPage => "/dashboard"
      case OrdersPage => "/orders"
      case AddOrderPage => "/add-order"
      case SalesPage => "/sales"
      case CustomersPage => "/customers"
      case DesignsPage => "/designs"
      case AddDesignPage => "/add-design"
    }
  }

  const LoginPath: string := "/"
  const FallbackPath: string := "/customers"

  /** The `allowedRoles` of each protected route; the login page has none. */
  function AllowedRoles(p: Page): Option<seq<Role>> {
    match p
    case LoginPage => None
    case DashboardPage => Some([Admin])
    case SalesPage => Some([Admin])
    case _ => Some([Admin, Role.User])
  }

  datatype Outcome = Render | Redirect(to: string)

  /** `ProtectedRoute`: no stored user goes to the login page, a role outside
      the allowed ones goes to the customers page, anything else renders. */
  function ProtectedRoute(stored: Option<Session>, allowedRoles: seq<Role>): (r: Outcome)
    ensures stored.None? ==> r == Redirect(LoginPath)
    ensures stored.Some? && stored.value.role !in allowedRoles ==> r == Redirect(FallbackPath)
    ensures r == Render <==> stored.Some? && stored.value.role in allowedRoles
  {
    if stored.None? then Redirect(LoginPath)
    else if stored.value.role !in allowedRoles then Redirect(FallbackPath)
    else Render
  }

  /** What visiting a page yields. */
  function Visit(stored: Option<Session>, p: Page): Outcome {
    match AllowedRoles(p)
    case None => Render
    case Some(roles) => ProtectedRoute(stored, roles)
  }

  /** The route table: the login page is open; the dashboard and the sales
      page admit only administrators; the other five pages admit both roles;
      with nothing stored, every protected page sends to the login page. */
  lemma RouteTable(stored: Option<Session>, p: Page)
    ensures p == LoginPage ==> Visit(stored, p) == Render
    ensures p != LoginPage && stored.None? ==> Visit(stored, p) == Redirect(LoginPath)
    ensures (p == DashboardPage || p == SalesPage) && stored.Some? ==>
      (Visit(stored, p) == Render <==> stored.value.role == Admin)
    ensures (p == DashboardPage || p == SalesPage) && stored.Some? && stored.value.role == Role.User ==>
      Visit(stored, p) == Redirect(FallbackPath)
    ensures p in {OrdersPage, AddOrderPage, CustomersPage, DesignsPage, AddDesignPage} && stored.Some? ==>
      Visit(stored, p) == Render
  {
    if stored.Some? {
      match stored.value.role
      case Admin => assert Admin in [Admin, Role.User];
      case User => assert Role.User in [Admin, Role.User];
    }
  }

  /** The fallback page itself admits every role, so the redirect for a
      refused role never loops. */
  lemma FallbackAdmitsEveryone(s: Session)
    ensures Visit(Some(s), CustomersPage) == Render && CustomersPage.Path() == FallbackPath
  {
    match s.role
    case Admin => assert Admin in [Admin, Role.User];
    case User => assert Role.User in [Admin, Role.User];
  }

  // ----------------------------------------------------------------- sidebar

  datatype MenuItem = MenuItem(page: Page, name: string, roles: seq<Role>)

  const AllMenuItems: seq<MenuItem> := [
    MenuItem(DashboardPage, "Dashboard", [Admin]),
    MenuItem(OrdersPage, "Orders", [Admin, Role.User]),
    MenuItem(CustomersPage, "Customers", [Admin, Role.User]),
    MenuItem(DesignsPage, "Designs", [Admin, Role.User]),
    MenuItem(SalesPage, "Sales", [Admin])
  ]

  /** `user.role || "user"`: the role the sidebar uses. */
  function SidebarRole(stored: Option<Session>): (r: Role)
    ensures stored.None? ==> r == Role.User
    ensures stored.Some? ==> r == stored.value.role
  {
    if stored.Some? then stored.value.role else Role.User
  }

  /** `allMenuItems.filter(item => item.roles.includes(role))`. */
  function MenuItems(role: Role): seq<MenuItem> {
    Filter(AllMenuItems, (item: MenuItem) => role in item.roles)
  }

  function Labels(items: seq<MenuItem>): (ls: seq<string>)
    ensures |ls| == |items| && forall i :: 0 <= i < |items| ==> ls[i] == items[i].name
  {
    seq(|items|, i requires 0 <= i < |items| => items[i].name)
  }

  /** An administrator sees all five items; a user sees exactly Orders,
      Customers and Designs, in that order. */
  lemma MenuByRole()
    ensures MenuItems(Admin) == AllMenuItems && |MenuItems(Admin)| == 5
    ensures Labels(MenuItems(Role.User)) == ["Orders", "Customers", "Designs"]
  {
    var adminItem := (item: MenuItem) => Admin in item.roles;
    FilterAll(AllMenuItems, adminItem);
    var userItem := (item: MenuItem) => Role.User in item.roles;
    var middle := AllMenuItems[1..4];
    assert AllMenuItems == [AllMenuItems[0]] + middle + [AllMenuItems[4]];
    FilterAppend([AllMenuItems[0]] + middle, [AllMenuItems[4]], userItem);
    FilterAppend([AllMenuItems[0]], middle, userItem);
    FilterAll(middle, userItem);
    assert Filter([AllMenuItems[0]], userItem) == [];
    assert Filter([AllMenuItems[4]], userItem) == [];
  }

  /** Every item shown for a stored session links to a page that admits that
      session, and the items keep the order of the full menu. */
  lemma {:induction false} MenuItemsAreAdmitted(s: Session)
    ensures IsSubsequence(MenuItems(s.role), AllMenuItems)
    ensures forall item :: item in MenuItems(s.role) ==> Visit(Some(s), item.page) == Render
  {
    var p := (item: MenuItem) => s.role in item.roles;
    FilterSpec(AllMenuItems, p);
    MenuMatchesRoutes();
    forall item | item in MenuItems(s.role) ensures Visit(Some(s), item.page) == Render {
      assert item in AllMenuItems && s.role in item.roles;
      assert AllowedRoles(item.page) == Some(item.roles);
    }
  }

  /** Each menu item lists exactly the roles its route admits. */
  lemma MenuMatchesRoutes()
    ensures forall item :: item in AllMenuItems ==> AllowedRoles(item.page) == Some(item.roles)
  {
  }

  // ------------------------------------------------------- the browser state

  /** The page after a successful login. */
  function LandingPage(role: Role): (p: Page)
    ensures role == Admin ==> p == DashboardPage
    ensures role != Admin ==> p == CustomersPage
  {
    if role == Admin then DashboardPage else CustomersPage
  }

  /** The landing page always admits the session that was just stored. */
  lemma LandingPageAdmits(s: Session)
    ensures Visit(Some(s), LandingPage(s.role)) == Render
  {
  }

  /** What the browser keeps: the "user" entry of local storage, the current
      location and the login form's error text. */
  class Browser {
    var stored: Option<Session>
    var location: string
    var error: string

    constructor ()
      ensures stored.None? && location == LoginPath && error == ""
    {
      stored, location, error := None, LoginPath, "";
    }

    /** `handleLogin` once the server has answered: a success stores the
        answer and moves to the role's landing page; a failure shows the
        server's message, or "Invalid credentials" when there is none, and
        leaves the stored user and the location alone. */
    method HandleLogin(reply: Server.LoginReply)
      modifies this
      ensures reply.LoginOk? ==>
        && stored == Some(Session(reply.username, reply.role, reply.id))
        && location == LandingPage(reply.role).Path()
        && error == old(error)
      ensures reply.LoginDenied? ==>
        && stored == old(stored) && location == old(location)
        && error == reply.Message().GetOr("Invalid credentials")
    {
      match reply
      case LoginOk(username, role, id) =>
        stored := Some(Session(username, role, id));
        location := LandingPage(role).Path();
      case LoginDenied =>
        error := reply.Message().GetOr("Invalid credentials");
    }

    /** `handleLogout`: forgets the stored user and goes to the login page. */
    method Logout()
      modifies this
      ensures stored.None? && location == LoginPath && error == old(error)
    {
      stored := None;
      location := LoginPath;
    }
  }

  /** After a logout every protected page sends back to the login page. */
  lemma LoggedOutIsLockedOut(p: Page)
    requires p != LoginPage
    ensures Visit(None, p) == Redirect(LoginPath)
  {
  }

  // --------------------------------------------------------------- admin gates

  /** `user.role === "admin"` on the parsed stored user. */
  predicate IsAdmin(stored: Option<Session>) {
    stored.Some? && stored.value.role == Admin
  }

  const PlaceholderImage: string := "https://via.placeholder.com/150"

  /** The parts of a design card that depend on the role and on the data. */
  datatype DesignCard = DesignCard(
    image: string, code: string, cost: Option<Money>, selling: Money, deleteButton: bool)

  /** One card of the Designs page. */
  function DesignCardFor(d: Design, stored: Option<Session>): (c: DesignCard)
    ensures c.cost.Some? <==> IsAdmin(stored)
    ensures c.cost.Some? ==> c.cost.value == d.costPrice
    ensures c.deleteButton <==> IsAdmin(stored)
    ensures c.selling == d.sellingPrice && c.code == d.code
    ensures c.image == (if d.image == [] then PlaceholderImage else d.image)
  {
    DesignCard(
      if d.image == [] then PlaceholderImage else d.image,
      d.code,
      if IsAdmin(stored) then Some(d.costPrice) else None,
      d.sellingPrice,
      IsAdmin(stored))
  }

  /** The Orders and Customers tables: the action column with the delete
      button exists only for an administrator. */
  function DeleteColumn(stored: Option<Session>): (shown: bool)
    ensures shown <==> stored.Some? && stored.value.role == Admin
  {
    IsAdmin(stored)
  }

  /** A stored design passed the schema, so its card never shows the
      placeholder; an ordinary user never sees the cost price. */
  lemma StoredDesignCard(d: Design, stored: Option<Session>)
    requires d.image != []
    ensures DesignCardFor(d, stored).image == d.image
    ensures SidebarRole(stored) == Role.User ==> DesignCardFor(d, stored).cost.None?
  {
  }
}

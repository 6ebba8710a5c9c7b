/**
 * The admin entry point (client/src/Admin.tsx): an `isAuthenticated` flag
 * restored from the stored `adminToken` on mount, set by a login and cleared,
 * together with the stored token, by a logout.
 */
module ClientAdmin {
  import opened Common
  import opened Browser

  const AdminTokenKey: string := "adminToken"

  datatype AdminView = LoginView | DashboardView

  /** The login view is shown exactly when not authenticated. */
  function ViewFor(isAuthenticated: bool): (v: AdminView)
    ensures v == LoginView <==> !isAuthenticated
    ensures v == DashboardView <==> isAuthenticated
  {
    if !isAuthenticated then LoginView else DashboardView
  }

  class AdminApp {
    var isAuthenticated: bool

    constructor ()
      ensures !isAuthenticated
    {
      isAuthenticated := false;
    }

    function View(): AdminView
      reads this
    {
      ViewFor(isAuthenticated)
    }

    /** The mount effect: a stored, non-empty token authenticates; otherwise the flag is left as it is. */
    method Mount(storage: LocalStorage)
      modifies this
      ensures Truthy(storage.GetItem(AdminTokenKey)) ==> isAuthenticated
      ensures !Truthy(storage.GetItem(AdminTokenKey)) ==> isAuthenticated == old(isAuthenticated)
    {
      var token := storage.GetItem(AdminTokenKey);
      if Truthy(token) {
        isAuthenticated := true;
      }
    }

    /** `handleLogin`, called back by the login form once the server accepted the password. */
    method HandleLogin()
      modifies this
      ensures isAuthenticated && View() == DashboardView
    {
      isAuthenticated := true;
    }

    /** `handleLogout`: forgets the token and shows the login form again. */
    method HandleLogout(storage: LocalStorage)
      modifies this, storage
      ensures !isAuthenticated && View() == LoginView
      ensures storage.items == old(storage.items) - {AdminTokenKey}
      ensures storage.GetItem(AdminTokenKey) == None
    {
      storage.RemoveItem(AdminTokenKey);
      isAuthenticated := false;
    }
  }

  /** A fresh page load after a logout starts at the login view. */
  method ReloadAfterLogout(storage: LocalStorage) returns (app: AdminApp)
    modifies storage
    ensures fresh(app) && app.View() == LoginView
  {
    var before := new AdminApp();
    before.HandleLogin();
    before.HandleLogout(storage);
    app := new AdminApp();
    app.Mount(storage);
  }
}

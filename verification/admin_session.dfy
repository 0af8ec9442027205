/** The admin login endpoints: POST /auth, GET /check and POST /logout. The
    configured admin password is a parameter (`None` when the environment
    variable is unset). */
module AdminSession {
  import opened Common
  import opened Sessions
  import opened AuthMiddleware

  datatype AdminAuthReply = AdminGranted | WrongAdminPassword | ConfigurationError {
    function Status(): int {
      match this
      case AdminGranted => 200
      case WrongAdminPassword => 401
      case ConfigurationError => 500
    }

    function Message(): string {
      match this
      case AdminGranted => "Admin access granted"
      case WrongAdminPassword => "Invalid admin password."
      case ConfigurationError => "Server configuration error"
    }
  }

  /** POST /auth: without a configured secret, 500 and no change; with the
      exact secret, the admin flag, its time and a 24-hour cookie lifetime
      are set; otherwise 401 and no change. The visitor fields are never
      touched. */
  method AdminAuth(sess: Session, password: Option<string>, adminPassword: Option<string>, now: Time)
    returns (r: AdminAuthReply)
    modifies sess
    ensures !Truthy(adminPassword) ==> r == ConfigurationError && unchanged(sess)
    ensures Truthy(adminPassword) && password != adminPassword ==>
      r == WrongAdminPassword && unchanged(sess)
    ensures Truthy(adminPassword) && password == adminPassword ==>
      && r == AdminGranted
      && sess.isAdmin && sess.adminAuthenticatedAt == Some(now)
      && sess.cookieMaxAge == Some(AdminCookieMaxAge)
      && sess.isAuthenticated == old(sess.isAuthenticated)
      && sess.authenticatedAt == old(sess.authenticatedAt)
      && sess.accessCodeId == old(sess.accessCodeId)
      && sess.customerName == old(sess.customerName)
    ensures RequireAdmin(sess).Next? <==> old(sess.isAdmin) || r == AdminGranted
    ensures RequireAuth(sess) == old(RequireAuth(sess))
  {
    if !Truthy(adminPassword) {
      return ConfigurationError;
    }
    if password == adminPassword {
      sess.isAdmin := true;
      sess.adminAuthenticatedAt := Some(now);
      sess.cookieMaxAge := Some(AdminCookieMaxAge);
      return AdminGranted;
    }
    return WrongAdminPassword;
  }

  /** The body of GET /check. */
  datatype AdminCheckReply = AdminCheckReply(isAdmin: bool, authenticatedAt: Option<Time>)

  /** GET /check: reports admin exactly when the admin gate would pass, with
      the admin login time. */
  function AdminCheck(s: Session?): (r: AdminCheckReply)
    reads s
    ensures r.isAdmin <==> RequireAdmin(s).Next?
    ensures r.isAdmin ==> r.authenticatedAt == s.adminAuthenticatedAt
    ensures !r.isAdmin ==> r.authenticatedAt == None
  {
    if s != null && s.isAdmin then AdminCheckReply(true, s.adminAuthenticatedAt)
    else AdminCheckReply(false, None)
  }

  /** POST /logout (admin): clears only the admin flag and its time; a
      visitor login in the same session survives. */
  method AdminLogout(sess: Session)
    modifies sess
    ensures !sess.isAdmin && sess.adminAuthenticatedAt == None
    ensures sess.isAuthenticated == old(sess.isAuthenticated)
    ensures sess.authenticatedAt == old(sess.authenticatedAt)
    ensures sess.accessCodeId == old(sess.accessCodeId)
    ensures sess.customerName == old(sess.customerName)
    ensures sess.cookieMaxAge == old(sess.cookieMaxAge)
    ensures RequireAdmin(sess).Reject? && RequireAuth(sess) == old(RequireAuth(sess))
  {
    sess.isAdmin := false;
    sess.adminAuthenticatedAt := None;
  }
}

/** The per-visitor session object the handlers read and write field by field.
    A field the handlers have never set reads as false / absent. */
module Sessions {
  import opened Common

  /** The admin session lifetime set on login: 24 hours in milliseconds. */
  const AdminCookieMaxAge: int := 24 * 60 * 60 * 1000

  class Session {
    var isAuthenticated: bool
    var authenticatedAt: Option<Time>
    var accessCodeId: Option<Id>
    var customerName: Option<string>
    var isAdmin: bool
    var adminAuthenticatedAt: Option<Time>
    var cookieMaxAge: Option<int>

    /** A new, anonymous session. */
    constructor ()
      ensures !isAuthenticated && authenticatedAt == None && accessCodeId == None
      ensures customerName == None && !isAdmin && adminAuthenticatedAt == None
      ensures cookieMaxAge == None
    {
      isAuthenticated := false;
      authenticatedAt := None;
      accessCodeId := None;
      customerName := None;
      isAdmin := false;
      adminAuthenticatedAt := None;
      cookieMaxAge := None;
    }

    /** Anonymous: neither flag set and nothing bound. */
    predicate IsCleared()
      reads this
    {
      && !isAuthenticated && authenticatedAt == None && accessCodeId == None
      && customerName == None && !isAdmin && adminAuthenticatedAt == None
    }
  }
}

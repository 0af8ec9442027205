/** The two route guards: a visitor gate on `isAuthenticated` and an admin
    gate on `isAdmin`. A request may carry no session at all (`null`). */
module AuthMiddleware {
  import opened Sessions

  datatype Gate = Next | Reject(status: int, error: string)

  /** `requireAuth`: hands on to the next handler exactly when a session
      exists with `isAuthenticated` set, and otherwise answers 401 itself. */
  function RequireAuth(s: Session?): (g: Gate)
    reads s
    ensures g.Next? <==> s != null && s.isAuthenticated
    ensures g.Reject? ==> g == Reject(401, "Unauthorized. Please log in.")
  {
    if s != null && s.isAuthenticated then Next
    else Reject(401, "Unauthorized. Please log in.")
  }

  /** `requireAdmin`: hands on exactly when the session has `isAdmin` set. */
  function RequireAdmin(s: Session?): (g: Gate)
    reads s
    ensures g.Next? <==> s != null && s.isAdmin
    ensures g.Reject? ==> g == Reject(401, "Admin access required.")
  {
    if s != null && s.isAdmin then Next
    else Reject(401, "Admin access required.")
  }

  /** The gates are independent: the admin flag grants no visitor access and
      the visitor flag grants no admin access. */
  lemma GatesAreIndependent(s: Session)
    ensures s.isAdmin && !s.isAuthenticated ==> RequireAuth(s).Reject? && RequireAdmin(s).Next?
    ensures s.isAuthenticated && !s.isAdmin ==> RequireAuth(s).Next? && RequireAdmin(s).Reject?
  {
  }

  /** Without a session both gates refuse. */
  lemma NoSessionIsRefused()
    ensures RequireAuth(null) == Reject(401, "Unauthorized. Please log in.")
    ensures RequireAdmin(null) == Reject(401, "Admin access required.")
  {
  }
}

/**
 * `ProtectedRoute`: what a guarded page renders, from the authentication
 * state and the role the route asks for. Nothing is changed; it only
 * chooses a view.
 */
module ProtectedRoute {
  import opened Wrappers

  /** The roles a route may ask for (`requiredRole`). */
  datatype RequiredRole = Admin | Agent | Staff

  /** What `useAuth()` reports; `user` is the signed-in user's id. */
  datatype Auth = Auth(user: Option<string>, isLoading: bool, isAdmin: bool, isAgent: bool, isStaff: bool)

  /** The four screens the guard can show, and the page itself. */
  datatype View = Spinner | RedirectToAuth | AdminDenied | StaffDenied | Children

  const AdminDeniedText := "Vous n'avez pas les droits administrateur pour acc\U{e9}der \U{e0} cette page."
  const StaffDeniedText := "Vous n'avez pas les droits pour acc\U{e9}der \U{e0} cette page. Contactez un administrateur pour obtenir l'acc\U{e8}s."

  /** The explanation under "Acc\U{e8}s refus\U{e9}" on the two denial screens. */
  function DeniedText(v: View): (r: Option<string>)
    ensures r.Some? <==> v.AdminDenied? || v.StaffDenied?
  {
    match v
    case AdminDenied => Some(AdminDeniedText)
    case StaffDenied => Some(StaffDeniedText)
    case _ => None
  }

  /**
   * The guard: loading first, then the sign-in, then the admin and staff
   * requirements; every other case renders the page.
   */
  function Route(auth: Auth, required: Option<RequiredRole>): (v: View)
    ensures v == Spinner <==> auth.isLoading
    ensures v == RedirectToAuth <==> !auth.isLoading && auth.user.None?
    ensures v == AdminDenied <==> !auth.isLoading && auth.user.Some? && required == Some(Admin) && !auth.isAdmin
    ensures v == StaffDenied <==> !auth.isLoading && auth.user.Some? && required == Some(Staff) && !auth.isStaff
    ensures v == Children <==>
      && !auth.isLoading && auth.user.Some?
      && (required == Some(Admin) ==> auth.isAdmin)
      && (required == Some(Staff) ==> auth.isStaff)
  {
    if auth.isLoading then Spinner
    else if auth.user.None? then RedirectToAuth
    else if required == Some(Admin) && !auth.isAdmin then AdminDenied
    else if required == Some(Staff) && !auth.isStaff then StaffDenied
    else Children
  }

  /** `isAgent` is read from `useAuth()` but never decides anything. */
  lemma AgentFlagIgnored(auth: Auth, required: Option<RequiredRole>, isAgent: bool)
    ensures Route(auth.(isAgent := isAgent), required) == Route(auth, required)
  {
  }

  /** A route that asks for `agent` is guarded exactly like one that asks for nothing: any signed-in user enters. */
  lemma AgentRouteUnguarded(auth: Auth)
    ensures Route(auth, Some(Agent)) == Route(auth, None)
    ensures !auth.isLoading && auth.user.Some? ==> Route(auth, Some(Agent)) == Children
  {
  }

  /** Holding more rights never turns an admitted user away. */
  lemma MoreRightsStillAdmitted(auth: Auth, more: Auth, required: Option<RequiredRole>)
    requires Route(auth, required) == Children
    requires more.user.Some? && !more.isLoading
    requires auth.isAdmin ==> more.isAdmin
    requires auth.isStaff ==> more.isStaff
    ensures Route(more, required) == Children
  {
  }
}

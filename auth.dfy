/**
 * `useAuth`: the signed-in user, their role from `user_roles` (default
 * "member"), a loading flag and an error, settled by one run of its effect.
 */
module Auth {
  import opened Wrappers
  import opened Store

  const DefaultRole: string := "member"

  /** The hook's four pieces of state. */
  datatype AuthState = AuthState(user: Option<User>, role: string, loading: bool, error: Option<string>)

  /** Before the effect has done anything. */
  function Initial(): (s: AuthState)
    ensures s.user.None? && s.role == "member" && s.loading && s.error.None?
  {
    AuthState(None, DefaultRole, true, None)
  }

  /** What `auth.getSession()` gives: an error, no session user, or a user. */
  datatype SessionResult = SessionError(message: string) | NoSession | Session(user: User)

  /** What the `user_roles` lookup gives: an error, or the row's `role` (`None` for no row or a null role). */
  datatype RoleResult = RoleError(message: string) | RoleRow(role: Option<string>)

  /**
   * Where the component was unmounted, if it was: during the session await or
   * during the role await (only a session user starts the latter; for any
   * other session result `DuringRole` means the cancellation came too late to matter).
   */
  datatype CancelPoint = NotCancelled | DuringSession | DuringRole

  /** The role set after the lookup: the row's role when it is a non-empty string, otherwise "member". */
  function ResolveRole(r: RoleResult): (role: string)
    ensures role != []
    ensures r.RoleRow? && r.role.Some? && r.role.value != [] ==> role == r.role.value
    ensures !(r.RoleRow? && r.role.Some? && r.role.value != []) ==> role == DefaultRole
  {
    if r.RoleRow? && r.role.Some? && r.role.value != [] then r.role.value else DefaultRole
  }

  /** The state after one run of the effect, from state `s`. */
  function Effect(s: AuthState, session: SessionResult, roleResult: RoleResult, cancel: CancelPoint): (r: AuthState)
    ensures cancel == DuringSession ==> r == s
    ensures cancel != DuringSession && session.SessionError? ==>
      r == s.(error := Some(session.message), loading := false)
    ensures cancel != DuringSession && session.NoSession? ==> r == s.(loading := false)
    ensures session.Session? && cancel == DuringRole ==> r == s.(user := Some(session.user))
    ensures session.Session? && cancel == NotCancelled ==>
      && r.user == Some(session.user) && !r.loading && r.role == ResolveRole(roleResult)
      && r.error == (if roleResult.RoleError? then Some(roleResult.message) else s.error)
  {
    if cancel == DuringSession then s
    else
      match session
      case SessionError(m) => s.(error := Some(m), loading := false)
      case NoSession => s.(loading := false)
      case Session(u) =>
        var withUser := s.(user := Some(u));
        if cancel == DuringRole then withUser
        else
          var withRole := if roleResult.RoleError? then withUser.(error := Some(roleResult.message), role := DefaultRole)
                          else withUser.(role := ResolveRole(roleResult));
          withRole.(loading := false)
  }

  /** Every run that is not cancelled ends with `loading` false. */
  lemma EffectSettles(s: AuthState, session: SessionResult, roleResult: RoleResult)
    ensures !Effect(s, session, roleResult, NotCancelled).loading
  {
  }

  /**
   * After unmounting, role, loading flag and error are never touched again
   * (a cancellation during the role lookup needs a session user to have
   * started that lookup; the user was set before it).
   */
  lemma CancelledEffectFreezes(s: AuthState, session: SessionResult, roleResult: RoleResult, cancel: CancelPoint)
    requires cancel == DuringSession || (cancel == DuringRole && session.Session?)
    ensures var r := Effect(s, session, roleResult, cancel);
            r.role == s.role && r.loading == s.loading && r.error == s.error
  {
  }

  /**
   * From the initial state: a user exactly when there was a session user, an
   * error exactly when a call failed, and a role other than "member" only
   * when a role row named one.
   */
  lemma EffectFromInitial(session: SessionResult, roleResult: RoleResult)
    ensures var r := Effect(Initial(), session, roleResult, NotCancelled);
      && (r.user.Some? <==> session.Session?)
      && (r.error.Some? <==> session.SessionError? || (session.Session? && roleResult.RoleError?))
      && (r.role != DefaultRole ==> session.Session? && roleResult.RoleRow? && roleResult.role == Some(r.role))
  {
    match session
    case SessionError(_) =>
    case NoSession =>
    case Session(u) =>
      var r := Effect(Initial(), session, roleResult, NotCancelled);
      assert r.user == Some(u);
      assert r.error.Some? <==> roleResult.RoleError?;
  }

  /** The hook's state, updated in place by its effect. */
  class AuthHook {
    var user: Option<User>
    var role: string
    var loading: bool
    var error: Option<string>

    function State(): AuthState
      reads this
    {
      AuthState(user, role, loading, error)
    }

    constructor ()
      ensures State() == Initial()
    {
      user, role, loading, error := None, DefaultRole, true, None;
    }

    /** The effect's async body: each `if (cancelled) return` sits after an await. */
    method RunEffect(session: SessionResult, roleResult: RoleResult, cancel: CancelPoint)
      modifies this
      ensures State() == Effect(old(State()), session, roleResult, cancel)
    {
      if cancel == DuringSession {
        return;
      }
      if session.SessionError? {
        error := Some(session.message);
        loading := false;
        return;
      }
      if session.NoSession? {
        loading := false;
        return;
      }
      user := Some(session.user);
      if cancel == DuringRole {
        return;
      }
      if roleResult.RoleError? {
        error := Some(roleResult.message);
        role := DefaultRole;
      } else if roleResult.role.Some? && roleResult.role.value != [] {
        role := roleResult.role.value;
      } else {
        role := DefaultRole;
      }
      loading := false;
    }
  }
}

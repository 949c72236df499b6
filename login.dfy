/**
 * routes/login.py: the session a login writes, the three access decorators,
 * the role redirect after a form login, and the JSON login endpoint.
 * Password hashes are checked by `passwordMatches(hash, password)`, which
 * stands for werkzeug's `check_password_hash`.
 */
module Login {
  import opened Wrappers
  import opened Text
  import opened Tables

  /** The keys of Flask's `session` that the application writes and reads. */
  datatype Session = Session(
    userId: Option<int>, userNombre: Option<string>, userEmail: Option<string>,
    userTelefono: Option<string>, rol: Option<string>, permanent: bool)

  /** What a decorator does with a request: run the view or redirect. */
  datatype Gate = Admit | RedirectToLogin | RedirectToIndex

  /** `login_required`: the view runs only when `user_id` is in the session. */
  function LoginRequired(s: Session): (g: Gate)
    ensures g != RedirectToIndex
    ensures g == Admit <==> s.userId.Some?
  {
    if s.userId.None? then RedirectToLogin else Admit
  }

  /** `admin_required`: logged in and `rol == 'admin'`. */
  function AdminRequired(s: Session): (g: Gate)
    ensures g == RedirectToLogin <==> s.userId.None?
    ensures g == Admit <==> s.userId.Some? && s.rol == Some("admin")
  {
    if s.userId.None? then RedirectToLogin
    else if s.rol != Some("admin") then RedirectToIndex
    else Admit
  }

  /** `instructor_required`: logged in with role `instructor` or `admin`. */
  function InstructorRequired(s: Session): (g: Gate)
    ensures g == RedirectToLogin <==> s.userId.None?
    ensures g == Admit <==> s.userId.Some? && (s.rol == Some("instructor") || s.rol == Some("admin"))
  {
    if s.userId.None? then RedirectToLogin
    else if s.rol !in [Some("instructor"), Some("admin")] then RedirectToIndex
    else Admit
  }

  /** Each decorator admits no more than the one before it. */
  lemma GatesNested(s: Session)
    ensures AdminRequired(s) == Admit ==> InstructorRequired(s) == Admit
    ensures InstructorRequired(s) == Admit ==> LoginRequired(s) == Admit
  {
  }

  /** The first active user with this email (`WHERE email = ? AND activo = 1`, `fetchone`). */
  function FindActiveUser(users: seq<User>, email: string): (r: Option<User>)
    ensures r.Some? ==> r.value in users && r.value.email == email && r.value.activo == 1
    ensures r.Some? ==>
      exists i :: 0 <= i < |users| && users[i] == r.value
        && forall j :: 0 <= j < i ==> !(users[j].email == email && users[j].activo == 1)
    ensures r.None? <==> forall u :: u in users ==> !(u.email == email && u.activo == 1)
  {
    if |users| == 0 then None
    else if users[0].email == email && users[0].activo == 1 then Some(users[0])
    else FindActiveUser(users[1..], email)
  }

  datatype Credentials = MissingFields | BadCredentials | Authenticated(user: User)

  /** The check both login paths share: fields present, an active user, a matching password. */
  function CheckCredentials(
    users: seq<User>, email: Option<string>, password: Option<string>,
    passwordMatches: (string, string) -> bool): (r: Credentials)
    ensures r.MissingFields? <==> !Truthy(email) || !Truthy(password)
    ensures r.Authenticated? ==>
      && r.user in users && r.user.activo == 1 && email == Some(r.user.email)
      && passwordMatches(r.user.password, password.value)
    ensures r.BadCredentials? ==>
      var found := FindActiveUser(users, email.value);
      found.None? || !passwordMatches(found.value.password, password.value)
  {
    if !Truthy(email) || !Truthy(password) then MissingFields
    else
      match FindActiveUser(users, email.value)
      case Some(u) => if passwordMatches(u.password, password.value) then Authenticated(u) else BadCredentials
      case None => BadCredentials
  }

  /** No user whose account is inactive can log in, whatever the password. */
  lemma InactiveCannotLogIn(
    users: seq<User>, email: string, password: Option<string>,
    passwordMatches: (string, string) -> bool)
    requires forall u :: u in users && u.email == email ==> u.activo != 1
    ensures !CheckCredentials(users, Some(email), password, passwordMatches).Authenticated?
  {
  }

  datatype Destination = AdminPanel | InstructorPanel | IndexPage

  /** Where a successful form login redirects. */
  function RoleDestination(rol: string): (d: Destination)
    ensures d == AdminPanel <==> rol == "admin"
    ensures d == InstructorPanel <==> rol == "instructor"
    ensures d == IndexPage <==> rol != "admin" && rol != "instructor"
  {
    if rol == "admin" then AdminPanel
    else if rol == "instructor" then InstructorPanel
    else IndexPage
  }

  datatype LoginForm = LoginForm(email: Option<string>, password: Option<string>, rememberMe: Option<string>)

  datatype LoginOutcome = FormIncomplete | WrongCredentials | Welcome(destination: Destination)

  /** Flask's `session` object, written by a successful login. */
  class FlaskSession {
    var userId: Option<int>
    var userNombre: Option<string>
    var userEmail: Option<string>
    var userTelefono: Option<string>
    var rol: Option<string>
    var permanent: bool

    function View(): Session
      reads this
    {
      Session(userId, userNombre, userEmail, userTelefono, rol, permanent)
    }

    constructor ()
      ensures View() == Session(None, None, None, None, None, false)
    {
      userId, userNombre, userEmail, userTelefono, rol := None, None, None, None, None;
      permanent := false;
    }

    /** `logout`: `session.clear()` removes every key. */
    method Logout()
      modifies this
      ensures View() == Session(None, None, None, None, None, false)
      ensures LoginRequired(View()) == RedirectToLogin
    {
      userId, userNombre, userEmail, userTelefono, rol := None, None, None, None, None;
      permanent := false;
    }
  }

  /**
   * The POST branch of `login`: on success copies id, nombre, email, telefono
   * and rol into the session, makes it permanent when "remember me" is ticked,
   * and redirects by role; otherwise the session is untouched.
   */
  method Login(
    session: FlaskSession, users: seq<User>, form: LoginForm,
    passwordMatches: (string, string) -> bool) returns (o: LoginOutcome)
    modifies session
    ensures var c := CheckCredentials(users, form.email, form.password, passwordMatches);
      && (c.MissingFields? ==> o == FormIncomplete && session.View() == old(session.View()))
      && (c.BadCredentials? ==> o == WrongCredentials && session.View() == old(session.View()))
      && (c.Authenticated? ==>
            && o == Welcome(RoleDestination(c.user.rol))
            && session.View() == Session(
                 Some(c.user.id), Some(c.user.nombre), Some(c.user.email),
                 Some(c.user.telefono), Some(c.user.rol),
                 old(session.permanent) || Truthy(form.rememberMe)))
  {
    var c := CheckCredentials(users, form.email, form.password, passwordMatches);
    match c
    case MissingFields =>
      o := FormIncomplete;
    case BadCredentials =>
      o := WrongCredentials;
    case Authenticated(u) =>
      session.userId := Some(u.id);
      session.userNombre := Some(u.nombre);
      session.userEmail := Some(u.email);
      session.userTelefono := Some(u.telefono);
      session.rol := Some(u.rol);
      if Truthy(form.rememberMe) {
        session.permanent := true;
      }
      o := Welcome(RoleDestination(u.rol));
  }

  datatype UserSummary = UserSummary(id: int, nombre: string, email: string, rol: string)

  /** The JSON reply of `api_login`: HTTP status, `success`, `message` and `user`. */
  datatype ApiReply = ApiReply(status: int, success: bool, message: string, user: Option<UserSummary>)

  /** `api_login`: 400 for a missing field, 401 for bad credentials, 200 with the user otherwise. */
  function ApiLogin(
    users: seq<User>, email: Option<string>, password: Option<string>,
    passwordMatches: (string, string) -> bool): (r: ApiReply)
    ensures r.status == 400 || r.status == 401 || r.status == 200
    ensures r.status == 400 <==> !Truthy(email) || !Truthy(password)
    ensures r.success <==> r.status == 200
    ensures r.user.Some? <==> r.status == 200
    ensures r.status == 200 ==>
      exists u :: u in users && u.activo == 1 && email == Some(u.email)
        && r.user == Some(UserSummary(u.id, u.nombre, u.email, u.rol))
  {
    match CheckCredentials(users, email, password, passwordMatches)
    case MissingFields => ApiReply(400, false, "Email y contraseña requeridos", None)
    case BadCredentials => ApiReply(401, false, "Credenciales incorrectas", None)
    case Authenticated(u) =>
      ApiReply(200, true, "Login exitoso", Some(UserSummary(u.id, u.nombre, u.email, u.rol)))
  }

  /** The form login and the JSON login accept exactly the same credentials. */
  lemma FormAndApiAgree(
    users: seq<User>, email: Option<string>, password: Option<string>,
    passwordMatches: (string, string) -> bool)
    ensures ApiLogin(users, email, password, passwordMatches).status == 200
        <==> CheckCredentials(users, email, password, passwordMatches).Authenticated?
  {
  }
}

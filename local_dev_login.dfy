/**
 * The "Local Development Login" plugin (src/local-dev-login.php): in a local
 * environment an empty password logs in the user named, and the name `admin` falls
 * back to the administrator with the smallest ID when no such login exists.
 *
 * The user database behind `get_user_by` and `get_users` is a sequence of records.
 */
module LocalDevLogin {
  import opened Wrappers

  /** The default username, mapped to the first administrator when no such login exists. */
  const USERNAME: string := "admin"

  /** The password accepted for every user. */
  const PASSWORD: string := ""

  datatype User = User(id: nat, login: string, isAdministrator: bool)

  /** The `$user` that earlier `authenticate` filters pass on: null, a user or an error. */
  datatype Incoming = NoUser | SomeUser(user: User) | SomeError(code: string)

  /** A PHP call of the function as written: it returns, or its declared return type throws. */
  datatype Outcome = Returned(value: Incoming) | ReturnTypeError

  /** WordPress keeps logins unique. */
  predicate UniqueLogins(users: seq<User>) {
    forall i, j :: 0 <= i < j < |users| ==> users[i].login != users[j].login
  }

  /** `get_user_by('login', $login) ?: null`. */
  function FindByLogin(users: seq<User>, login: string): (r: Option<User>)
    ensures r.Some? ==> r.value in users && r.value.login == login
    ensures r.None? <==> forall u :: u in users ==> u.login != login
  {
    if users == [] then None
    else if users[0].login == login then Some(users[0])
    else FindByLogin(users[1..], login)
  }

  /** `get_users(['role' => 'administrator', 'orderby' => 'ID', 'number' => 1])[0] ?? null`. */
  function FirstAdministrator(users: seq<User>): (r: Option<User>)
    ensures r.Some? ==> r.value in users && r.value.isAdministrator
    ensures r.Some? ==> forall u :: u in users && u.isAdministrator ==> r.value.id <= u.id
    ensures r.None? <==> forall u :: u in users ==> !u.isAdministrator
  {
    if users == [] then None
    else
      var rest := FirstAdministrator(users[1..]);
      if !users[0].isAdministrator then rest
      else if rest.Some? && rest.value.id < users[0].id then rest
      else Some(users[0])
  }

  /** The lookup of lines 44-52: the login named, else for `admin` the first administrator. */
  function LookUp(users: seq<User>, username: string): (r: Option<User>)
    ensures r.Some? ==> r.value in users
    ensures r.Some? && r.value.login != username ==> username == USERNAME && r.value.isAdministrator
  {
    var found := FindByLogin(users, username);
    if found.None? && username == USERNAME then FirstAdministrator(users) else found
  }

  function FromOption(u: Option<User>): Incoming {
    match u
    case None => NoUser
    case Some(v) => SomeUser(v)
  }

  /**
   * `authenticate` as written: the declared return type `?\WP_User` turns the pass-through
   * of an incoming `WP_Error` into a TypeError.
   */
  function AuthenticateAsWritten(users: seq<User>, user: Incoming, username: string, password: string): (r: Outcome)
    ensures user.SomeError? <==> r == ReturnTypeError
    ensures !user.SomeError? ==> r.Returned?
    ensures r.Returned? && r.value.SomeUser? && r.value != user ==> r.value.user in users && password == PASSWORD
  {
    if user != NoUser || password != PASSWORD then
      if user.SomeError? then ReturnTypeError else Returned(user)
    else
      Returned(FromOption(LookUp(users, username)))
  }

  /** `authenticate` with the error passed on, as its `@param` line evidently intends. */
  function Authenticate(users: seq<User>, user: Incoming, username: string, password: string): (r: Incoming)
    ensures user != NoUser ==> r == user
    ensures password != PASSWORD ==> r == user
    ensures r.SomeError? ==> r == user
    ensures r.SomeUser? && r != user ==> r.user in users && password == PASSWORD
  {
    if user != NoUser || password != PASSWORD then user
    else FromOption(LookUp(users, username))
  }

  /** The filter is registered only in a local environment; elsewhere the result is untouched. */
  function AuthenticateFilter(environmentType: string, users: seq<User>, user: Incoming, username: string, password: string): (r: Incoming)
    ensures environmentType != "local" ==> r == user
    ensures environmentType == "local" ==> r == Authenticate(users, user, username, password)
  {
    if environmentType != "local" then user else Authenticate(users, user, username, password)
  }

  // ---------------------------------------------------------------------------
  // The decision, case by case.

  /** The user whose login is the name given is returned, with no password check. */
  lemma LoginMatchWins(users: seq<User>, username: string, u: User)
    requires UniqueLogins(users)
    requires u in users && u.login == username
    ensures Authenticate(users, NoUser, username, PASSWORD) == SomeUser(u)
  {
    var r := FindByLogin(users, username);
    var i :| 0 <= i < |users| && users[i] == u;
    var j :| 0 <= j < |users| && users[j] == r.value;
    assert users[i].login == users[j].login;
  }

  /** A real user called `admin` is chosen over the administrator fallback, whatever its role. */
  lemma RealAdminLoginFirst(users: seq<User>, u: User)
    requires UniqueLogins(users)
    requires u in users && u.login == USERNAME && !u.isAdministrator
    ensures Authenticate(users, NoUser, USERNAME, PASSWORD) == SomeUser(u)
  {
    LoginMatchWins(users, USERNAME, u);
  }

  /** With no login `admin`, the name `admin` gives the administrator with the smallest ID. */
  lemma AdminFallback(users: seq<User>)
    requires forall u :: u in users ==> u.login != USERNAME
    ensures var r := Authenticate(users, NoUser, USERNAME, PASSWORD);
      && (r.SomeUser? ==> r.user in users && r.user.isAdministrator
                          && forall v :: v in users && v.isAdministrator ==> r.user.id <= v.id)
      && (r == NoUser <==> forall v :: v in users ==> !v.isAdministrator)
      && !r.SomeError?
  {
  }

  /** Any other unknown name gives nobody. */
  lemma UnknownNameGivesNobody(users: seq<User>, username: string)
    requires username != USERNAME
    requires forall u :: u in users ==> u.login != username
    ensures Authenticate(users, NoUser, username, PASSWORD) == NoUser
  {
  }

  /** Outside a local environment an empty password logs nobody in. */
  lemma NoBypassOutsideLocal(environmentType: string, users: seq<User>, username: string)
    requires environmentType != "local"
    ensures AuthenticateFilter(environmentType, users, NoUser, username, PASSWORD) == NoUser
  {
  }

  /** As written, an incoming error is a TypeError whatever the name and password. */
  lemma AsWrittenRejectsError(users: seq<User>, code: string, username: string, password: string)
    ensures AuthenticateAsWritten(users, SomeError(code), username, password) == ReturnTypeError
    ensures Authenticate(users, SomeError(code), username, password) == SomeError(code)
  {
  }

  /** On every other input the function as written and the corrected one agree. */
  lemma AsWrittenAgreesOtherwise(users: seq<User>, user: Incoming, username: string, password: string)
    requires !user.SomeError?
    ensures AuthenticateAsWritten(users, user, username, password) == Returned(Authenticate(users, user, username, password))
  {
  }
}

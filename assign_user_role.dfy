/**
 * The `assign-user-role` edge function: it checks the request, finds the
 * account with the given email among the listed users, then updates that
 * account's row of `user_roles` when one exists or inserts one otherwise.
 */
module AssignUserRole {
  import opened Wrappers

  /** The roles a request may assign. */
  datatype AppRole = Admin | Agent

  function RoleName(r: AppRole): string
  {
    match r
    case Admin => "admin"
    case Agent => "agent"
  }

  /** `['admin', 'agent'].includes(role)`, with the role it names. */
  function ParseRole(s: string): (r: Option<AppRole>)
    ensures r.Some? <==> s == "admin" || s == "agent"
  {
    if s == "admin" then Some(Admin)
    else if s == "agent" then Some(Agent)
    else None
  }

  /** Role names and roles are in one-to-one correspondence. */
  lemma ParseRoleName(s: string, r: AppRole)
    ensures ParseRole(s) == Some(r) <==> s == RoleName(r)
  {
  }

  /** One row of `user_roles`. */
  datatype RoleRow = RoleRow(userId: string, role: AppRole)

  /** An account as `auth.admin.listUsers()` reports it. */
  datatype AuthUser = AuthUser(id: string, email: Option<string>)

  /**
   * The body as `req.json()` and the destructuring read it: a body that is
   * not JSON (or is `null`) throws; otherwise each field is present or not.
   */
  datatype Body = Unparsable | Fields(email: Option<string>, role: Option<string>)

  datatype Request = Request(httpMethod: string, body: Body)

  /** Everything that is thrown inside the `try` block. */
  datatype Fault =
    | Rejected            // an error thrown by the runtime: a body that does not parse, a rejected call
    | MissingFields
    | InvalidRole
    | CouldNotRetrieveUsers
    | NoSuchUser(email: string)
    | UpdateFailed
    | InsertFailed
    | CheckFailed         // raised only by the corrected write, see `WriteRoleChecked`

  /** `error.message` of each failure; `thrown` is the runtime's own message. */
  function FaultMessage(f: Fault, thrown: string): string
  {
    match f
    case Rejected => thrown
    case MissingFields => "Missing required fields: email or role"
    case InvalidRole => "Invalid role. Must be 'admin' or 'agent'"
    case CouldNotRetrieveUsers => "Could not retrieve users"
    case NoSuchUser(email) =>
      "Aucun utilisateur trouv\U{e9} avec l'email " + email + ". L'utilisateur doit d'abord cr\U{e9}er un compte."
    case UpdateFailed => "Erreur lors de la mise \U{e0} jour du r\U{f4}le"
    case InsertFailed => "Erreur lors de l'attribution du r\U{f4}le"
    case CheckFailed => "Erreur lors de la v\U{e9}rification du r\U{f4}le"
  }

  /** A field that JavaScript's `!field` rejects: absent or the empty string. */
  predicate Blank(field: Option<string>)
  {
    field.None? || field.value == ""
  }

  /** The two checks made before any call: both fields present, and a known role. */
  function ValidateRequest(body: Body): (r: Result<(string, AppRole), Fault>)
    ensures body.Unparsable? ==> r == Failure(Rejected)
    ensures body.Fields? && (Blank(body.email) || Blank(body.role)) ==> r == Failure(MissingFields)
    ensures body.Fields? && !Blank(body.email) && !Blank(body.role) && ParseRole(body.role.value).None? ==>
      r == Failure(InvalidRole)
    ensures r.Success? <==> body.Fields? && !Blank(body.email) && body.role.Some? && ParseRole(body.role.value).Some?
    ensures r.Success? ==> r.value.0 == body.email.value && RoleName(r.value.1) == body.role.value
  {
    match body
    case Unparsable => Failure(Rejected)
    case Fields(email, role) =>
      if Blank(email) || Blank(role) then Failure(MissingFields)
      else match ParseRole(role.value)
        case None => Failure(InvalidRole)
        case Some(r) => Success((email.value, r))
  }

  /** `users.find(u => u.email === email)`. */
  function FindByEmail(users: seq<AuthUser>, email: string): (u: Option<AuthUser>)
    ensures u.Some? ==> u.value in users && u.value.email == Some(email)
    ensures u.None? <==> forall i :: 0 <= i < |users| ==> users[i].email != Some(email)
  {
    if users == [] then None
    else if users[0].email == Some(email) then Some(users[0])
    else
      var u := FindByEmail(users[1..], email);
      assert forall i :: 1 <= i < |users| ==> users[i] == users[1..][i - 1];
      u
  }

  /** The account found is the first one listed with that email. */
  lemma {:induction false} FindsFirst(users: seq<AuthUser>, email: string, i: nat)
    requires i < |users| && users[i].email == Some(email)
    requires forall j :: 0 <= j < i ==> users[j].email != Some(email)
    ensures FindByEmail(users, email) == Some(users[i])
  {
    if i > 0 {
      FindsFirst(users[1..], email, i - 1);
    }
  }

  /** The rows of one user, in table order (`.eq('user_id', uid)`). */
  function RowsOf(rows: seq<RoleRow>, uid: string): (r: seq<RoleRow>)
    ensures |r| <= |rows|
    ensures forall x :: x in r <==> x in rows && x.userId == uid
  {
    if rows == [] then []
    else (if rows[0].userId == uid then [rows[0]] else []) + RowsOf(rows[1..], uid)
  }

  /** The invariant the function is meant to keep: no user holds two role rows. */
  ghost predicate OneRolePerUser(rows: seq<RoleRow>)
  {
    forall v :: |RowsOf(rows, v)| <= 1
  }

  /** `.update({ role }).eq('user_id', uid)`. */
  function UpdateRole(rows: seq<RoleRow>, uid: string, role: AppRole): (r: seq<RoleRow>)
    ensures |r| == |rows|
    ensures forall i :: 0 <= i < |rows| ==>
      r[i] == if rows[i].userId == uid then RoleRow(uid, role) else rows[i]
  {
    if rows == [] then []
    else [if rows[0].userId == uid then RoleRow(uid, role) else rows[0]] + UpdateRole(rows[1..], uid, role)
  }

  lemma {:induction false} RowsOfAppend(a: seq<RoleRow>, b: seq<RoleRow>, v: string)
    ensures RowsOf(a + b, v) == RowsOf(a, v) + RowsOf(b, v)
  {
    if a == [] {
      assert a + b == b;
    } else {
      assert (a + b)[0] == a[0];
      assert (a + b)[1..] == a[1..] + b;
      RowsOfAppend(a[1..], b, v);
    }
  }

  /** An update leaves every other user's rows as they were and gives each of this user's rows the new role. */
  lemma {:induction false} RowsOfUpdate(rows: seq<RoleRow>, uid: string, role: AppRole, v: string)
    ensures v != uid ==> RowsOf(UpdateRole(rows, uid, role), v) == RowsOf(rows, v)
    ensures v == uid ==> RowsOf(UpdateRole(rows, uid, role), v) == seq(|RowsOf(rows, v)|, _ => RoleRow(uid, role))
  {
    if rows != [] {
      RowsOfUpdate(rows[1..], uid, role, v);
      assert UpdateRole(rows, uid, role)[1..] == UpdateRole(rows[1..], uid, role);
    }
  }

  /** An insert adds one row for its user and none for anyone else. */
  lemma RowsOfInsert(rows: seq<RoleRow>, row: RoleRow, v: string)
    ensures RowsOf(rows + [row], v) == RowsOf(rows, v) + (if row.userId == v then [row] else [])
  {
    RowsOfAppend(rows, [row], v);
  }

  /**
   * The update-or-insert step AS WRITTEN. `existingRole` is the data of
   * `.single()`: a row when the user has exactly one, otherwise null, and
   * null as well when the check itself fails, since `checkError` is never
   * read.
   */
  function WriteRole(rows: seq<RoleRow>, uid: string, role: AppRole, check: Reply, write: Reply)
    : (r: Result<seq<RoleRow>, Fault>)
    ensures check == Threw || write == Threw ==> r == Failure(Rejected)
    ensures r.Failure? && check != Threw && write != Threw ==> write == Failed
  {
    if check == Threw then Failure(Rejected)
    else
      var existing := check == Answered && |RowsOf(rows, uid)| == 1;
      if write == Threw then Failure(Rejected)
      else if existing then
        if write == Failed then Failure(UpdateFailed) else Success(UpdateRole(rows, uid, role))
      else
        if write == Failed then Failure(InsertFailed) else Success(rows + [RoleRow(uid, role)])
  }

  /** A successful write touches no other user's rows and leaves this user with a row holding the role. */
  lemma WriteRoleOthersUntouched(rows: seq<RoleRow>, uid: string, role: AppRole, check: Reply, write: Reply, v: string)
    requires WriteRole(rows, uid, role, check, write).Success?
    ensures v != uid ==> RowsOf(WriteRole(rows, uid, role, check, write).value, v) == RowsOf(rows, v)
    ensures RoleRow(uid, role) in RowsOf(WriteRole(rows, uid, role, check, write).value, uid)
  {
    RowsOfUpdate(rows, uid, role, v);
    RowsOfUpdate(rows, uid, role, uid);
    if check == Answered && |RowsOf(rows, uid)| == 1 {
      assert RowsOf(UpdateRole(rows, uid, role), uid)[0] == RoleRow(uid, role);
    }
    RowsOfInsert(rows, RoleRow(uid, role), v);
    RowsOfInsert(rows, RoleRow(uid, role), uid);
  }

  /**
   * When the check answers and the user held at most one row, a successful
   * write leaves exactly one row for the user, holding the requested role,
   * and keeps the one-role-per-user invariant.
   */
  lemma WriteRoleSingleRow(rows: seq<RoleRow>, uid: string, role: AppRole, check: Reply, write: Reply)
    requires check == Answered && |RowsOf(rows, uid)| <= 1
    requires WriteRole(rows, uid, role, check, write).Success?
    ensures RowsOf(WriteRole(rows, uid, role, check, write).value, uid) == [RoleRow(uid, role)]
    ensures OneRolePerUser(rows) ==> OneRolePerUser(WriteRole(rows, uid, role, check, write).value)
  {
    var after := WriteRole(rows, uid, role, check, write).value;
    RowsOfUpdate(rows, uid, role, uid);
    RowsOfInsert(rows, RoleRow(uid, role), uid);
    if OneRolePerUser(rows) {
      forall v
        ensures |RowsOf(after, v)| <= 1
      {
        WriteRoleOthersUntouched(rows, uid, role, check, write, v);
      }
    }
  }

  /**
   * A check that fails while the user already holds a role row sends the
   * function to the insert branch: the user now holds two rows.
   */
  lemma DuplicateRoleAfterFailedCheck()
    ensures var before := [RoleRow("u", Agent)];
      && OneRolePerUser(before)
      && WriteRole(before, "u", Admin, Failed, Answered).Success?
      && RowsOf(WriteRole(before, "u", Admin, Failed, Answered).value, "u") == [RoleRow("u", Agent), RoleRow("u", Admin)]
      && !OneRolePerUser(WriteRole(before, "u", Admin, Failed, Answered).value)
  {
    var before := [RoleRow("u", Agent)];
    forall v
      ensures |RowsOf(before, v)| <= 1
    {
      assert RowsOf(before, v) == (if v == "u" then before else []) + RowsOf([], v);
    }
    RowsOfInsert(before, RoleRow("u", Admin), "u");
    assert RowsOf(before, "u") == [RoleRow("u", Agent)] by {
      assert RowsOf(before, "u") == [RoleRow("u", Agent)] + RowsOf([], "u");
    }
  }

  /**
   * The update-or-insert step as intended: a failed check stops with an
   * error, and any existing row, however many, is updated rather than
   * joined by a new one.
   */
  function WriteRoleChecked(rows: seq<RoleRow>, uid: string, role: AppRole, check: Reply, write: Reply)
    : (r: Result<seq<RoleRow>, Fault>)
    ensures check != Answered ==> r.Failure?
  {
    if check.Threw? then Failure(Rejected)
    else if check.Failed? then Failure(CheckFailed)
    else if write == Threw then Failure(Rejected)
    else if RowsOf(rows, uid) != [] then
      (if write == Failed then Failure(UpdateFailed) else Success(UpdateRole(rows, uid, role)))
    else
      (if write == Failed then Failure(InsertFailed) else Success(rows + [RoleRow(uid, role)]))
  }

  /** Whatever the replies, the corrected step keeps one role per user and, on success, leaves the user exactly the requested role. */
  lemma CheckedWriteKeepsOneRole(rows: seq<RoleRow>, uid: string, role: AppRole, check: Reply, write: Reply)
    requires OneRolePerUser(rows)
    requires WriteRoleChecked(rows, uid, role, check, write).Success?
    ensures RowsOf(WriteRoleChecked(rows, uid, role, check, write).value, uid) == [RoleRow(uid, role)]
    ensures OneRolePerUser(WriteRoleChecked(rows, uid, role, check, write).value)
  {
    assert |RowsOf(rows, uid)| <= 1;
    assert WriteRoleChecked(rows, uid, role, check, write) == WriteRole(rows, uid, role, check, write);
    WriteRoleSingleRow(rows, uid, role, check, write);
  }

  /** The whole `try` block: the new table, or what was thrown. */
  function Assign(rows: seq<RoleRow>, body: Body, users: seq<AuthUser>, list: Reply, check: Reply, write: Reply)
    : (r: Result<seq<RoleRow>, Fault>)
    ensures ValidateRequest(body).Failure? ==> r == Failure(ValidateRequest(body).error)
    ensures ValidateRequest(body).Success? && list == Failed ==> r == Failure(CouldNotRetrieveUsers)
    ensures ValidateRequest(body).Success? && list == Threw ==> r == Failure(Rejected)
    ensures ValidateRequest(body).Success? && list == Answered && FindByEmail(users, ValidateRequest(body).value.0).None? ==>
      r == Failure(NoSuchUser(ValidateRequest(body).value.0))
  {
    match ValidateRequest(body)
    case Failure(f) => Failure(f)
    case Success((email, role)) =>
      if list == Threw then Failure(Rejected)
      else if list == Failed then Failure(CouldNotRetrieveUsers)
      else match FindByEmail(users, email)
        case None => Failure(NoSuchUser(email))
        case Some(user) => WriteRole(rows, user.id, role, check, write)
  }

  /**
   * A successful request names a listed account by its email and a role;
   * that account ends with a row holding the role, and no other account's
   * rows change. When the check answered and the table kept one role per
   * user, it still does and the account holds exactly that role.
   */
  lemma AssignSucceeds(rows: seq<RoleRow>, body: Body, users: seq<AuthUser>, list: Reply, check: Reply, write: Reply)
    requires Assign(rows, body, users, list, check, write).Success?
    ensures ValidateRequest(body).Success? && list == Answered
    ensures var (email, role) := ValidateRequest(body).value;
      var user := FindByEmail(users, email);
      var after := Assign(rows, body, users, list, check, write).value;
      && user.Some? && user.value in users && user.value.email == Some(email)
      && RoleRow(user.value.id, role) in RowsOf(after, user.value.id)
      && (forall v :: v != user.value.id ==> RowsOf(after, v) == RowsOf(rows, v))
      && (check == Answered && OneRolePerUser(rows) ==>
            RowsOf(after, user.value.id) == [RoleRow(user.value.id, role)] && OneRolePerUser(after))
  {
    var (email, role) := ValidateRequest(body).value;
    var uid := FindByEmail(users, email).value.id;
    forall v | v != uid
      ensures RowsOf(Assign(rows, body, users, list, check, write).value, v) == RowsOf(rows, v)
    {
      WriteRoleOthersUntouched(rows, uid, role, check, write, v);
    }
    WriteRoleOthersUntouched(rows, uid, role, check, write, uid);
    if check == Answered && OneRolePerUser(rows) {
      assert |RowsOf(rows, uid)| <= 1;
      WriteRoleSingleRow(rows, uid, role, check, write);
    }
  }

  /** What the handler sends back. */
  datatype Response =
    | Preflight                                              // the empty CORS answer to `OPTIONS`
    | Json(status: int, success: bool, failure: Option<Fault>)

  /** `{ success: true }` with status 200, or `{ success: false, error }` with status 400. */
  function Respond(outcome: Result<seq<RoleRow>, Fault>): (r: Response)
    ensures r.Json? && (r.status == 200 || r.status == 400)
    ensures r.status == 200 <==> r.success
    ensures r.success <==> outcome.Success?
    ensures outcome.Failure? ==> r.failure == Some(outcome.error)
    ensures outcome.Success? ==> r.failure.None?
  {
    match outcome
    case Success(_) => Json(200, true, None)
    case Failure(f) => Json(400, false, Some(f))
  }

  /** The `user_roles` table as the function sees it. */
  class RoleTable {
    var rows: seq<RoleRow>

    constructor (initial: seq<RoleRow>)
      ensures rows == initial
    {
      rows := initial;
    }

    /**
     * `handler(req)`. `users` is what `listUsers()` answers with; `list`,
     * `check` and `write` say how the listing, the existence check and the
     * update or insert end.
     */
    method Handle(request: Request, users: seq<AuthUser>, list: Reply, check: Reply, write: Reply)
      returns (response: Response)
      modifies this
      ensures request.httpMethod == "OPTIONS" ==> response == Preflight && rows == old(rows)
      ensures request.httpMethod != "OPTIONS" ==>
        var outcome := Assign(old(rows), request.body, users, list, check, write);
        && response == Respond(outcome)
        && rows == (if outcome.Success? then outcome.value else old(rows))
    {
      if request.httpMethod == "OPTIONS" {
        return Preflight;
      }
      var valid := ValidateRequest(request.body);
      if valid.Failure? {
        return Respond(Failure(valid.error));
      }
      var (email, role) := valid.value;
      if list == Threw {
        return Respond(Failure(Rejected));
      }
      if list == Failed {
        return Respond(Failure(CouldNotRetrieveUsers));
      }
      var user := FindByEmail(users, email);
      if user.None? {
        return Respond(Failure(NoSuchUser(email)));
      }
      var uid := user.value.id;
      if check == Threw {
        return Respond(Failure(Rejected));
      }
      var existing := check == Answered && |RowsOf(rows, uid)| == 1;
      if write == Threw {
        return Respond(Failure(Rejected));
      }
      if existing {
        if write == Failed {
          return Respond(Failure(UpdateFailed));
        }
        rows := UpdateRole(rows, uid, role);
      } else {
        if write == Failed {
          return Respond(Failure(InsertFailed));
        }
        rows := rows + [RoleRow(uid, role)];
      }
      response := Respond(Success(rows));
    }
  }
}

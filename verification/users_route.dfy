/**
 * The users table and the admin users endpoint: POST creates an account
 * (required fields, unique email, hashed password, column defaults) and GET
 * lists accounts a page at a time without their password hashes.
 */
module UsersRoute {
  import opened Common
  import Paging

  /** A users row, restricted to the columns the console reads or writes; times are epoch milliseconds. */
  datatype UserRow = UserRow(
    id: nat,
    email: string,
    password: string,
    creditBalance: int,
    creditsExpiresAt: Option<int>,
    plan: string,
    role: string,
    status: string,
    createdAt: int,
    updatedAt: int)

  /** A users row as GET returns it: every column except the password. */
  datatype PublicUser = PublicUser(
    id: nat,
    email: string,
    creditBalance: int,
    creditsExpiresAt: Option<int>,
    plan: string,
    role: string,
    status: string,
    createdAt: int,
    updatedAt: int)

  datatype UserBody = UserBody(email: Option<string>, password: Option<string>, role: Option<string>, status: Option<string>)

  datatype Response = Success | BadRequest(message: string)

  const RequiredMessage: string := "Email and password are required"
  const ExistsMessage: string := "User already exists"
  /** Column defaults of the users table. */
  const DefaultCreditBalance: int := 10
  const DefaultPlan: string := "basic"

  predicate EmailTaken(rows: seq<UserRow>, email: string) {
    exists i :: 0 <= i < |rows| && rows[i].email == email
  }

  /** Emails unique, ids increasing and below the next serial value. */
  predicate Consistent(rows: seq<UserRow>, nextId: nat) {
    && (forall i, j :: 0 <= i < j < |rows| ==> rows[i].email != rows[j].email)
    && (forall i, j :: 0 <= i < j < |rows| ==> rows[i].id < rows[j].id)
    && (forall i :: 0 <= i < |rows| ==> 1 <= rows[i].id < nextId)
    && nextId >= 1
  }

  /**
   * The row POST inserts: the password stored as `hash(password)` (SHA-256 in
   * hex), role and status from the body or their defaults, the other columns
   * at their column defaults.
   */
  function NewUser(id: nat, body: UserBody, hash: string -> string, now: int): (u: UserRow)
    requires Truthy(body.email) && Truthy(body.password)
    ensures u.id == id && u.email == body.email.value && u.password == hash(body.password.value)
    ensures u.role == OrElse(body.role, "user") && u.status == OrElse(body.status, "active")
    ensures u.creditBalance == DefaultCreditBalance && u.plan == DefaultPlan && u.creditsExpiresAt.None?
    ensures u.createdAt == now && u.updatedAt == now
  {
    UserRow(id, body.email.value, hash(body.password.value), DefaultCreditBalance, None, DefaultPlan,
            OrElse(body.role, "user"), OrElse(body.status, "active"), now, now)
  }

  /** Omitting the password: `const { password, ...rest } = user`. */
  function Strip(u: UserRow): (p: PublicUser)
    ensures p.id == u.id && p.email == u.email && p.creditBalance == u.creditBalance
    ensures p.creditsExpiresAt == u.creditsExpiresAt && p.plan == u.plan && p.role == u.role
    ensures p.status == u.status && p.createdAt == u.createdAt && p.updatedAt == u.updatedAt
  {
    PublicUser(u.id, u.email, u.creditBalance, u.creditsExpiresAt, u.plan, u.role, u.status, u.createdAt, u.updatedAt)
  }

  /** Puts a password back on a listed user. */
  function WithPassword(p: PublicUser, password: string): (u: UserRow)
    ensures u.password == password && Strip(u) == p
  {
    UserRow(p.id, p.email, password, p.creditBalance, p.creditsExpiresAt, p.plan, p.role, p.status, p.createdAt, p.updatedAt)
  }

  /** Stripping loses the password and nothing else. */
  lemma StripLosesOnlyPassword(u: UserRow)
    ensures WithPassword(Strip(u), u.password) == u
  {
  }

  function StripAll(rows: seq<UserRow>): (r: seq<PublicUser>)
    ensures |r| == |rows| && forall i :: 0 <= i < |r| ==> WithPassword(r[i], rows[i].password) == rows[i]
  {
    seq(|rows|, i requires 0 <= i < |rows| => Strip(rows[i]))
  }

  /**
   * GET: the requested page of `rows` (already filtered by the email search
   * and ordered newest first), each without its password.
   */
  function List(rows: seq<UserRow>, pageParam: Option<string>, limitParam: Option<string>): (r: Option<Paging.Page<PublicUser>>)
    ensures r.Some? <==> Paging.Listing(rows, pageParam, limitParam).Some?
    ensures r.Some? ==> var listed := Paging.Listing(rows, pageParam, limitParam).value;
      r.value.items == StripAll(listed.items) && r.value.total == listed.total
      && r.value.page == listed.page && r.value.totalPages == listed.totalPages
  {
    match Paging.Listing(rows, pageParam, limitParam)
    case None => None
    case Some(listed) => Some(Paging.Page(StripAll(listed.items), listed.total, listed.page, listed.totalPages))
  }

  /** The users table, changed in place by POST and by the monthly renewal. */
  class UserTable {
    var rows: seq<UserRow>
    var nextId: nat

    ghost predicate Valid()
      reads this
    {
      Consistent(rows, nextId)
    }

    constructor ()
      ensures Valid() && rows == []
    {
      rows := [];
      nextId := 1;
    }

    /** POST: validation, the duplicate check, then one insert. */
    method Create(body: UserBody, hash: string -> string, now: int) returns (response: Response)
      requires Valid()
      modifies this
      ensures Valid()
      ensures !(Truthy(body.email) && Truthy(body.password)) ==>
        response == BadRequest(RequiredMessage) && rows == old(rows) && nextId == old(nextId)
      ensures Truthy(body.email) && Truthy(body.password) && EmailTaken(old(rows), body.email.value) ==>
        response == BadRequest(ExistsMessage) && rows == old(rows) && nextId == old(nextId)
      ensures response == Success <==> Truthy(body.email) && Truthy(body.password) && !EmailTaken(old(rows), body.email.value)
      ensures response == Success ==>
        rows == old(rows) + [NewUser(old(nextId), body, hash, now)] && nextId == old(nextId) + 1
    {
      if !(Truthy(body.email) && Truthy(body.password)) {
        return BadRequest(RequiredMessage);
      }
      if EmailTaken(rows, body.email.value) {
        return BadRequest(ExistsMessage);
      }
      var user := NewUser(nextId, body, hash, now);
      rows := rows + [user];
      nextId := nextId + 1;
      response := Success;
    }
  }
}

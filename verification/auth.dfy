/**
 * The sheet-backed login of both apps (`auth/auth_module.py`): the user list
 * read from the Users tab, normalised and cached; the credential check; and
 * the copy of a signed-in session user into the manager.
 *
 * What the sheet yields is an input (`SheetRead`): the connection, the
 * worksheet lookup and `get_all_records` are outside the model.
 */
module Auth {
  import opened Wrappers
  import opened Text
  import opened Seqs

  /** A user record: `{"name", "email", "password", "role"}`. */
  datatype User = User(name: string, email: string, password: string, role: string)

  /**
   * One record of the Users tab, each cell as its `str(...)` rendering;
   * `None` when the record has no such column.
   */
  datatype SheetRow = SheetRow(name: Option<string>, email: Option<string>, password: Option<string>, role: Option<string>)

  /** What an attempt to read the Users tab yields. */
  datatype SheetRead =
    | NoConnection           // `connect_to_sheets()` returned False
    | TabMissing             // the Users worksheet does not exist
    | ReadFailed             // any other exception while reading
    | Records(rows: seq<SheetRow>)

  /** The user returned when the sheet cannot be reached. */
  function DemoUser(): User {
    User("Demo User", "demo@example.com", "demo", "admin")
  }

  /**
   * A record as a user: every field stripped, email and role lower-cased,
   * missing cells read as "" except the role, which defaults to "user".
   */
  function NormalizeRow(r: SheetRow): User {
    User(Strip(r.name.GetOr("")), Lower(Strip(r.email.GetOr(""))), Strip(r.password.GetOr("")), Lower(Strip(r.role.GetOr("user"))))
  }

  /** The record is kept when its name and email are non-empty. */
  predicate Keep(u: User) {
    u.name != [] && u.email != []
  }

  /** A record holding exactly the user's fields. */
  function RowOf(u: User): SheetRow {
    SheetRow(Some(u.name), Some(u.email), Some(u.password), Some(u.role))
  }

  /**
   * The fields are in the form the loader produces (stripped, with email and
   * role lower-case): loading the user's own fields gives back the user.
   */
  predicate Normalized(u: User) {
    NormalizeRow(RowOf(u)) == u
  }

  /** Normalising is idempotent: a loaded user written back to the sheet loads as itself. */
  lemma NormalizeRowSpec(r: SheetRow)
    ensures Normalized(NormalizeRow(r))
    ensures var u := NormalizeRow(r);
      && u.name == Strip(u.name) && u.password == Strip(u.password)
      && u.email == Lower(Strip(u.email)) && u.role == Lower(Strip(u.role))
  {
    var u := NormalizeRow(r);
    StripIdempotent(r.name.GetOr(""));
    StripIdempotent(r.password.GetOr(""));
    NormalizedField(r.email.GetOr(""));
    NormalizedField(r.role.GetOr("user"));
  }

  /** A stripped, lower-cased field is a fixed point of stripping and lower-casing. */
  lemma NormalizedField(s: string)
    ensures Lower(Strip(Lower(Strip(s)))) == Lower(Strip(s))
  {
    StripLowerCommute(Strip(s));
    StripIdempotent(s);
    LowerIdempotent(Strip(s));
  }

  /** The user list the records yield: each record normalised, in order, keeping those with a name and an email. */
  function UsersFrom(rows: seq<SheetRow>): seq<User> {
    Filter(Keep, Map(NormalizeRow, rows))
  }

  /** Every loaded user comes from some record, is normalised, and has a name and an email. */
  lemma UsersFromSound(rows: seq<SheetRow>)
    ensures forall u :: u in UsersFrom(rows) ==> exists j :: 0 <= j < |rows| && u == NormalizeRow(rows[j])
    ensures forall i :: 0 <= i < |UsersFrom(rows)| ==> Normalized(UsersFrom(rows)[i]) && Keep(UsersFrom(rows)[i])
  {
    var m := Map(NormalizeRow, rows);
    var us := Filter(Keep, m);
    forall u | u in us ensures exists j :: 0 <= j < |rows| && u == NormalizeRow(rows[j]) {
      var j :| 0 <= j < |m| && m[j] == u;
      assert u == NormalizeRow(rows[j]);
    }
    forall i | 0 <= i < |us| ensures Normalized(us[i]) {
      assert us[i] in us;
      var j :| 0 <= j < |rows| && us[i] == NormalizeRow(rows[j]);
      NormalizeRowSpec(rows[j]);
    }
  }

  /** A record is dropped only when its normalised name or email is empty. */
  lemma UsersFromComplete(rows: seq<SheetRow>)
    ensures forall j :: 0 <= j < |rows| && Keep(NormalizeRow(rows[j])) ==> NormalizeRow(rows[j]) in UsersFrom(rows)
  {
    var m := Map(NormalizeRow, rows);
    FilterComplete(Keep, m);
    forall j | 0 <= j < |rows| && Keep(NormalizeRow(rows[j])) ensures NormalizeRow(rows[j]) in Filter(Keep, m) {
      assert m[j] == NormalizeRow(rows[j]);
    }
  }

  /** The loop over the records of `get_users_from_sheet`. */
  method NormalizeRows(rows: seq<SheetRow>) returns (users: seq<User>)
    ensures users == UsersFrom(rows)
  {
    users := [];
    for n := 0 to |rows|
      invariant users == UsersFrom(rows[..n])
    {
      var r := rows[n];
      var user := User(Strip(r.name.GetOr("")), Lower(Strip(r.email.GetOr(""))), Strip(r.password.GetOr("")), Lower(Strip(r.role.GetOr("user"))));
      if user.name != [] && user.email != [] {
        users := users + [user];
      }
      UsersFromSnoc(rows, n);
    }
    assert rows[..|rows|] == rows;
  }

  lemma UsersFromSnoc(rows: seq<SheetRow>, n: nat)
    requires n < |rows|
    ensures UsersFrom(rows[..n + 1]) == UsersFrom(rows[..n]) + (if Keep(NormalizeRow(rows[n])) then [NormalizeRow(rows[n])] else [])
  {
    var a, x := Map(NormalizeRow, rows[..n]), NormalizeRow(rows[n]);
    TakeSnoc(rows, n);
    MapAppend(NormalizeRow, rows[..n], [rows[n]]);
    assert Map(NormalizeRow, [rows[n]]) == [x];
    assert Map(NormalizeRow, rows[..n + 1]) == a + [x];
    FilterAppend(Keep, a, [x]);
    FilterCons(Keep, x, []);
    assert [x] + [] == [x];
  }

  /**
   * `get_users_from_sheet` as a function of the cache and what the sheet
   * yields: the users returned and the new cache. A non-empty cache is
   * returned as is; otherwise the sheet decides, and only a list actually
   * read from the sheet is stored (the demo list never is).
   */
  function LoadUsers(cache: Option<seq<User>>, read: SheetRead): (seq<User>, Option<seq<User>>) {
    if cache.Some? && cache.value != [] then (cache.value, cache)
    else
      match read
      case NoConnection => ([DemoUser()], cache)
      case TabMissing => ([], cache)
      case ReadFailed => ([], cache)
      case Records(rows) => (UsersFrom(rows), Some(UsersFrom(rows)))
  }

  /** Once a non-empty list is read from the sheet, every later load returns it, whatever the sheet then yields. */
  lemma LoadUsersSticky(cache: Option<seq<User>>, rows: seq<SheetRow>, later: SheetRead)
    requires LoadUsers(cache, Records(rows)).0 != []
    ensures LoadUsers(LoadUsers(cache, Records(rows)).1, later) == LoadUsers(cache, Records(rows))
  {
  }

  /** An empty load is not remembered: the next load reads the sheet again. */
  lemma EmptyLoadRetried(cache: Option<seq<User>>, read: SheetRead, rows: seq<SheetRow>)
    requires LoadUsers(cache, read).0 == []
    ensures LoadUsers(LoadUsers(cache, read).1, Records(rows)).0 == UsersFrom(rows)
  {
  }

  /** Without a connection and without a cached list the only user is the demo user, and nothing is cached. */
  lemma DemoMode(cache: Option<seq<User>>)
    requires cache.None? || cache == Some([])
    ensures LoadUsers(cache, NoConnection) == ([DemoUser()], cache)
  {
  }

  /** The credential test of `authenticate`, against the already normalised email and password. */
  predicate Matches(u: User, email: string, password: string) {
    u.email == email && u.password == password
  }

  /** The index of the first user matching the normalised credentials; `|users|` when none does. */
  function FirstMatch(users: seq<User>, email: string, password: string): (k: nat)
    ensures k <= |users|
    ensures forall i :: 0 <= i < k ==> !Matches(users[i], email, password)
    ensures k < |users| ==> Matches(users[k], email, password)
  {
    FirstFailing((u: User) => !Matches(u, email, password), users)
  }

  /** `authenticate` succeeds: the typed email, stripped and lower-cased, and the typed password, stripped, match some user. */
  predicate Accepts(users: seq<User>, email: string, password: string) {
    FirstMatch(users, Lower(Strip(email)), Strip(password)) < |users|
  }

  /** Acceptance means exactly that some user has that email and that password. */
  lemma AcceptsSpec(users: seq<User>, email: string, password: string)
    ensures Accepts(users, email, password) <==>
      exists i :: 0 <= i < |users| && users[i].email == Lower(Strip(email)) && users[i].password == Strip(password)
  {
    var k := FirstMatch(users, Lower(Strip(email)), Strip(password));
    if exists i :: 0 <= i < |users| && users[i].email == Lower(Strip(email)) && users[i].password == Strip(password) {
      var i :| 0 <= i < |users| && users[i].email == Lower(Strip(email)) && users[i].password == Strip(password);
      assert Matches(users[i], Lower(Strip(email)), Strip(password));
    }
  }

  /**
   * Surrounding whitespace and the case of the email do not matter; the
   * password's case does, since it is only stripped.
   */
  lemma AcceptsIgnoresCaseAndSpace(users: seq<User>, email: string, password: string)
    ensures Accepts(users, email, password) == Accepts(users, Lower(Strip(email)), Strip(password))
  {
    NormalizedField(email);
    StripIdempotent(password);
  }

  /** Every user loaded from the sheet can sign in with the email and password stored for them. */
  lemma StoredUserCanLogIn(rows: seq<SheetRow>, j: nat)
    requires j < |rows| && Keep(NormalizeRow(rows[j]))
    ensures Accepts(UsersFrom(rows), rows[j].email.GetOr(""), rows[j].password.GetOr(""))
  {
    var u := NormalizeRow(rows[j]);
    UsersFromComplete(rows);
    var i :| 0 <= i < |UsersFrom(rows)| && UsersFrom(rows)[i] == u;
    AcceptsSpec(UsersFrom(rows), rows[j].email.GetOr(""), rows[j].password.GetOr(""));
  }

  /** In demo mode, "demo@example.com" with password "demo" signs in, in any letter case and with surrounding spaces. */
  lemma DemoLogin(email: string, password: string)
    requires Lower(Strip(email)) == "demo@example.com" && Strip(password) == "demo"
    ensures Accepts([DemoUser()], email, password)
  {
    assert Matches(DemoUser(), Lower(Strip(email)), Strip(password));
  }

  /** The signed-in user kept in the session: `{'email', 'name', 'role'}`. */
  datatype SessionUser = SessionUser(email: string, name: string, role: string)

  /** The manager's state that the login flow reads and writes. */
  class AuthManager {
    var authenticated: bool
    var userEmail: Option<string>
    var userName: Option<string>
    var userRole: Option<string>
    var cachedUsers: Option<seq<User>>

    /** A fresh manager: nobody signed in and nothing cached. */
    constructor()
      ensures !authenticated && userEmail.None? && userName.None? && userRole.None?
      ensures cachedUsers.None?
    {
      authenticated := false;
      userEmail := None;
      userName := None;
      userRole := None;
      cachedUsers := None;
    }

    /** `get_users_from_sheet`: the cache when it is non-empty, otherwise what the sheet yields; only sheet lists are cached. */
    method GetUsersFromSheet(read: SheetRead) returns (users: seq<User>)
      modifies this
      ensures users == LoadUsers(old(cachedUsers), read).0 && cachedUsers == LoadUsers(old(cachedUsers), read).1
      ensures authenticated == old(authenticated) && userEmail == old(userEmail)
      ensures userName == old(userName) && userRole == old(userRole)
    {
      if cachedUsers.Some? && cachedUsers.value != [] {
        return cachedUsers.value;
      }
      match read
      case NoConnection =>
        users := [DemoUser()];
      case TabMissing =>
        users := [];
      case ReadFailed =>
        users := [];
      case Records(rows) =>
        users := NormalizeRows(rows);
        cachedUsers := Some(users);
    }

    /**
     * `authenticate`: on success the manager is signed in as the first
     * matching user; on failure the sign-in fields are left as they were.
     */
    method Authenticate(read: SheetRead, email: string, password: string) returns (ok: bool)
      modifies this
      ensures cachedUsers == LoadUsers(old(cachedUsers), read).1
      ensures var users := LoadUsers(old(cachedUsers), read).0;
        && ok == Accepts(users, email, password)
        && (ok ==>
              var u := users[FirstMatch(users, Lower(Strip(email)), Strip(password))];
              authenticated && userEmail == Some(u.email) && userName == Some(u.name) && userRole == Some(u.role))
        && (!ok ==>
              authenticated == old(authenticated) && userEmail == old(userEmail)
              && userName == old(userName) && userRole == old(userRole))
    {
      ghost var load := LoadUsers(old(cachedUsers), read);
      var users := GetUsersFromSheet(read);
      assert users == load.0 && cachedUsers == load.1;
      var e := Lower(Strip(email));
      var p := Strip(password);
      for i := 0 to |users|
        invariant cachedUsers == load.1
        invariant forall j :: 0 <= j < i ==> !Matches(users[j], e, p)
        invariant authenticated == old(authenticated) && userEmail == old(userEmail)
        invariant userName == old(userName) && userRole == old(userRole)
      {
        var user := users[i];
        if user.email == e && user.password == p {
          authenticated := true;
          userEmail := Some(user.email);
          userName := Some(user.name);
          userRole := Some(user.role);
          return true;
        }
      }
      return false;
    }

    /**
     * `check_authentication`: with a user in the session, copy it into the
     * manager and succeed. Otherwise fail; the login page shown then loads
     * the users once, which may fill the cache, and leaves the sign-in
     * fields as they were until a login click.
     */
    method CheckAuthentication(session: Option<SessionUser>, read: SheetRead) returns (ok: bool)
      modifies this
      ensures ok <==> session.Some?
      ensures ok ==> authenticated && userEmail == Some(session.value.email)
                     && userName == Some(session.value.name) && userRole == Some(session.value.role)
                     && cachedUsers == old(cachedUsers)
      ensures !ok ==> authenticated == old(authenticated) && userEmail == old(userEmail)
                      && userName == old(userName) && userRole == old(userRole)
                      && cachedUsers == LoadUsers(old(cachedUsers), read).1
    {
      if session.None? {
        var shown := GetUsersFromSheet(read);
        return false;
      }
      var user := session.value;
      userEmail := Some(user.email);
      userName := Some(user.name);
      userRole := Some(user.role);
      authenticated := true;
      return true;
    }
  }
}

/**
 * The client-side authentication provider (client/src/hooks/useAuth.ts):
 * accounts kept in the browser's local storage, a session user, and the
 * login, register and logout actions. Both local storage entries are fields
 * here; React's state updates are applied at once.
 */
module UseAuth {
  import opened Wrappers

  /** An account of the `mirrorTime_users` list, as `register` writes it. */
  datatype MockUser = MockUser(id: int, username: string, password: string, email: string, fullName: string)

  /** The session user: the account without its password. */
  datatype SessionUser = SessionUser(id: int, username: string, email: string, fullName: string)

  /**
   * The text under `mirrorTime_user`, as the start-up effect sees it: the
   * empty string, text `JSON.parse` rejects, or JSON whose value is a user
   * or `null`.
   */
  datatype StoredUser = EmptyText | Unparsable | Parsed(value: Option<SessionUser>)

  function WithoutPassword(u: MockUser): SessionUser
  {
    SessionUser(u.id, u.username, u.email, u.fullName)
  }

  /** `mockUsers.find(...)`: the first account with both the username and the password. */
  function FindAccount(users: seq<MockUser>, username: string, password: string): (r: Option<nat>)
    ensures r.None? <==> forall i :: 0 <= i < |users| ==> !(users[i].username == username && users[i].password == password)
    ensures r.Some? ==> r.value < |users| && users[r.value].username == username && users[r.value].password == password
    ensures r.Some? ==> forall i :: 0 <= i < r.value ==> !(users[i].username == username && users[i].password == password)
  {
    if users == [] then None
    else if users[0].username == username && users[0].password == password then Some(0)
    else
      var k := FindAccount(users[1..], username, password);
      if k.Some? then Some(k.value + 1) else None
  }

  predicate UsernameTaken(users: seq<MockUser>, username: string) {
    exists i :: 0 <= i < |users| && users[i].username == username
  }

  predicate EmailTaken(users: seq<MockUser>, email: string) {
    exists i :: 0 <= i < |users| && users[i].email == email
  }

  /** No two accounts share a username or an email. */
  ghost predicate DistinctAccounts(users: seq<MockUser>) {
    forall i, j :: 0 <= i < j < |users| ==> users[i].username != users[j].username && users[i].email != users[j].email
  }

  /** With usernames distinct, a login finds exactly the account with that username, if its password matches. */
  lemma FindAccountByUsername(users: seq<MockUser>, k: nat, password: string)
    requires DistinctAccounts(users) && k < |users|
    ensures FindAccount(users, users[k].username, password) == (if users[k].password == password then Some(k) else None)
  {
  }

  /** Appending an account whose username is new lets that account log in, and it alone. */
  lemma NewAccountLogsIn(users: seq<MockUser>, account: MockUser)
    requires !UsernameTaken(users, account.username)
    ensures FindAccount(users + [account], account.username, account.password) == Some(|users|)
  {
    var all := users + [account];
    assert all[|users|] == account;
    assert forall i :: 0 <= i < |users| ==> all[i] == users[i];
  }

  class AuthProvider {
    /** The `mirrorTime_users` list. */
    var users: seq<MockUser>
    /** The `user` state. */
    var user: Option<SessionUser>
    /** The `isLoggedIn` state. */
    var isLoggedIn: bool
    /** The `mirrorTime_user` entry; None when absent. */
    var storedUser: Option<StoredUser>

    /** The session and its stored copy agree, as every action leaves them. */
    predicate Synced()
      reads this
    {
      isLoggedIn == user.Some?
      && storedUser == (if user.Some? then Some(Parsed(user)) else None)
    }

    /** The provider mounts with no session over what local storage holds. */
    constructor (accounts: seq<MockUser>, stored: Option<StoredUser>)
      ensures users == accounts && user == None && !isLoggedIn && storedUser == stored
    {
      users := accounts;
      user := None;
      isLoggedIn := false;
      storedUser := stored;
    }

    /**
     * The start-up effect: a non-empty stored entry that parses becomes the
     * session (even JSON `null`, which logs in with no user); one that does
     * not parse is removed.
     */
    method Init()
      modifies this
      ensures users == old(users)
      ensures old(storedUser).Some? && old(storedUser).value.Parsed? ==>
        user == old(storedUser).value.value && isLoggedIn && storedUser == old(storedUser)
      ensures old(storedUser) == Some(Unparsable) ==>
        user == old(user) && isLoggedIn == old(isLoggedIn) && storedUser == None
      ensures old(storedUser) == None || old(storedUser) == Some(EmptyText) ==>
        user == old(user) && isLoggedIn == old(isLoggedIn) && storedUser == old(storedUser)
      ensures old(user) == None && !old(isLoggedIn) && old(storedUser) != Some(EmptyText) && old(storedUser) != Some(Parsed(None)) ==> Synced()
    {
      if storedUser.Some? && storedUser.value != EmptyText {
        match storedUser.value {
          case Parsed(value) =>
            user := value;
            isLoggedIn := true;
          case Unparsable =>
            storedUser := None;
        }
      }
    }

    /** login: the first account with both credentials becomes the session; otherwise nothing changes. */
    method Login(username: string, password: string) returns (error: Option<string>)
      modifies this
      ensures users == old(users)
      ensures FindAccount(old(users), username, password).None? ==>
        error == Some("Invalid username or password")
        && user == old(user) && isLoggedIn == old(isLoggedIn) && storedUser == old(storedUser)
      ensures FindAccount(old(users), username, password).Some? ==>
        error == None
        && user == Some(WithoutPassword(old(users)[FindAccount(old(users), username, password).value]))
        && Synced()
    {
      var found := FindAccount(users, username, password);
      if found.Some? {
        var session := WithoutPassword(users[found.value]);
        user := Some(session);
        isLoggedIn := true;
        storedUser := Some(Parsed(Some(session)));
        error := None;
      } else {
        error := Some("Invalid username or password");
      }
    }

    /**
     * register: a taken username is refused first, then a taken email;
     * otherwise the account (its id the clock reading `now`) is appended and
     * logged in.
     */
    method Register(username: string, password: string, email: string, fullName: string, now: int)
      returns (error: Option<string>)
      modifies this
      ensures UsernameTaken(old(users), username) ==> error == Some("Username already taken")
      ensures !UsernameTaken(old(users), username) && EmailTaken(old(users), email) ==>
        error == Some("Email already in use")
      ensures error.Some? ==>
        users == old(users) && user == old(user) && isLoggedIn == old(isLoggedIn) && storedUser == old(storedUser)
      ensures error.None? <==> !UsernameTaken(old(users), username) && !EmailTaken(old(users), email)
      ensures error.None? ==>
        users == old(users) + [MockUser(now, username, password, email, fullName)]
        && user == Some(SessionUser(now, username, email, fullName))
        && Synced()
      ensures DistinctAccounts(old(users)) ==> DistinctAccounts(users)
    {
      if UsernameTaken(users, username) {
        return Some("Username already taken");
      }
      if EmailTaken(users, email) {
        return Some("Email already in use");
      }
      var account := MockUser(now, username, password, email, fullName);
      users := users + [account];
      var session := WithoutPassword(account);
      user := Some(session);
      isLoggedIn := true;
      storedUser := Some(Parsed(Some(session)));
      error := None;
    }

    /** logout: the session and its stored copy are cleared; the accounts stay. */
    method Logout()
      modifies this
      ensures users == old(users) && user == None && !isLoggedIn && storedUser == None
      ensures Synced()
    {
      user := None;
      isLoggedIn := false;
      storedUser := None;
    }
  }

  /** After a registration, logging out and back in with the same credentials restores the session. */
  method RegisterThenLogIn(auth: AuthProvider, username: string, password: string, email: string, fullName: string, now: int)
    returns (error: Option<string>)
    modifies auth
    requires !UsernameTaken(auth.users, username) && !EmailTaken(auth.users, email)
    ensures error.None? && auth.user == Some(SessionUser(now, username, email, fullName)) && auth.Synced()
  {
    var registered := auth.Register(username, password, email, fullName, now);
    auth.Logout();
    NewAccountLogsIn(old(auth.users), MockUser(now, username, password, email, fullName));
    error := auth.Login(username, password);
  }
}

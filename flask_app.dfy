/**
 * The Flask backend (app/routes/auth.py, app/routes/history.py over the
 * models in app/models). The database is a class holding both tables in
 * insertion order and the next id of each autoincrement column. A session
 * commit that fails is the flag `commitOk`; the rollback then leaves the
 * tables as they were. Password hashing, `json.dumps`, the clock and
 * `isoformat` are parameters.
 */
module FlaskApp {
  import opened Wrappers
  import opened Text
  import opened Json
  import opened Schema
  import opened HistoryOrder
  import opened Storage
  import ServerRoutes

  /** A history row as the handlers serialise it, `saved_at` as ISO text. */
  datatype ItemData = ItemData(
    id: int, userId: int, time: string, kind: string,
    thoughts: Option<string>, details: Option<string>, savedAt: string)

  datatype FlaskBody =
    | Msg(message: string)
    | MsgUser(message: string, user: PublicUser)
    | MsgItem(message: string, item: ItemData)
    | ItemList(items: seq<ItemData>)
    | MsgError(message: string)
    | NoContent

  datatype FlaskResponse = FlaskResponse(status: int, body: FlaskBody)

  /**
   * The JSON request bodies. `None` for the body stands for a falsy
   * `request.get_json()` (`null`, `{}`); `None` for a field for a missing
   * key or a JSON `null`. A missing or non-JSON body, for which Flask
   * answers with its own error before the handler runs, is not modelled.
   */
  datatype RegisterRequest = RegisterRequest(username: Option<string>, email: Option<string>, password: Option<string>)
  datatype LoginRequest = LoginRequest(username: Option<string>, password: Option<string>)
  datatype HistoryRequest = HistoryRequest(
    userId: Option<int>, time: Option<string>, kind: Option<string>,
    thoughts: Option<string>, details: Option<Json>)

  /** Python truthiness of an optional string field. */
  predicate Given(s: Option<string>) {
    s.Some? && s.value != ""
  }

  /** `all([user_id, time_str, item_type])`. */
  predicate FieldsGiven(r: HistoryRequest) {
    r.userId.Some? && r.userId.value != 0 && Given(r.time) && Given(r.kind)
  }

  /** The row a create request adds. */
  function NewRow(r: HistoryRequest, id: int, details: Option<string>, now: int): HistoryItem
    requires FieldsGiven(r)
  {
    HistoryItem(id, r.userId.value, r.time.value, r.kind.value, r.thoughts, details, now)
  }

  /** Some stored user has this username or this email. */
  predicate Taken(users: seq<User>, username: string, email: string) {
    exists k :: 0 <= k < |users| && (users[k].username == username || users[k].email == email)
  }

  /** `HistoryItem.query.get`: the row with that primary key, if any. */
  function FindItem(items: seq<HistoryItem>, id: int): (r: Option<HistoryItem>)
    ensures r.Some? ==> r.value in items && r.value.id == id
    ensures r.None? ==> forall h :: h in items ==> h.id != id
  {
    if items == [] then None
    else if items[0].id == id then Some(items[0])
    else FindItem(items[1..], id)
  }

  /** `str` of a JSON scalar as Python prints it. */
  function PyStr(v: Json): string
    requires !v.Null? && !v.Array? && !v.Object?
  {
    match v
    case Bool(b) => if b then "True" else "False"
    case Number(n) => IntToString(n)
    case Str(s) => s
  }

  /** `details`: dicts and lists go through `json.dumps`, other values through `str`; no truncation. */
  function NormalizeDetails(details: Option<Json>, dumps: Json -> string): (r: Option<string>)
    ensures r.None? <==> details.None? || details.value.Null?
    ensures details.Some? && (details.value.Array? || details.value.Object?) ==> r == Some(dumps(details.value))
    ensures details.Some? && details.value.Str? ==> r == Some(details.value.s)
    ensures details.Some? && details.value.Bool? ==> r == Some(if details.value.b then "True" else "False")
    ensures details.Some? && details.value.Number? ==> r == Some(IntToString(details.value.n))
    ensures details.Some? && details.value.Number? ==> r.Some? && ParseIntOfDecimal(r.value) == Some(details.value.n)
  {
    match details
    case None => None
    case Some(v) =>
      if v.Null? then None
      else if v.Array? || v.Object? then Some(dumps(v))
      else if v.Number? then
        IntToStringReadsBack(v.n);
        Some(PyStr(v))
      else Some(PyStr(v))
  }

  /** `int()` of a decimal rendering: an optional '-' then digits. */
  function ParseIntOfDecimal(s: string): Option<int> {
    if s != [] && s[0] == '-' && |s| > 1 && AllDigits(s[1..]) then Some(-(DecimalValue(s[1..]) as int))
    else if s != [] && AllDigits(s) then Some(DecimalValue(s))
    else None
  }

  /** A digit string, alone or after '-', reads back as its value. */
  lemma DigitsReadBack(d: string)
    requires d != [] && AllDigits(d)
    ensures ParseIntOfDecimal(d) == Some(DecimalValue(d) as int)
    ensures ParseIntOfDecimal("-" + d) == Some(-(DecimalValue(d) as int))
  {
    assert ("-" + d)[1..] == d;
  }

  lemma IntToStringReadsBack(n: int)
    ensures ParseIntOfDecimal(IntToString(n)) == Some(n)
  {
    var m: nat := if n < 0 then -n else n;
    DecimalValueOfNatToString(m);
    DigitsReadBack(NatToString(m));
  }

  /**
   * The two backends disagree on `details`: Flask keeps falsy values (`0`
   * is stored as "0", `false` as "False") that the TypeScript handler
   * drops, and keeps long strings whole where the TypeScript handler cuts
   * them at 5000 characters.
   */
  lemma DetailsDifferBetweenBackends(dumps: Json -> string, stringify: Json -> string, long: string)
    requires |long| > ServerRoutes.DETAILS_LIMIT
    ensures NormalizeDetails(Some(Number(0)), dumps) == Some("0")
    ensures ServerRoutes.KeepDetails(Some(Number(0)), stringify) == None
    ensures NormalizeDetails(Some(Bool(false)), dumps) == Some("False")
    ensures ServerRoutes.KeepDetails(Some(Bool(false)), stringify) == None
    ensures NormalizeDetails(Some(Str(long)), dumps) == Some(long)
    ensures |ServerRoutes.KeepDetails(Some(Str(long)), stringify).value| == ServerRoutes.DETAILS_LIMIT
  {
    assert IntToString(0) == "0";
  }

  /** A row as the handlers serialise it. */
  function ToItemData(h: HistoryItem, isoformat: int -> string): (d: ItemData)
    ensures d.id == h.id && d.userId == h.userId && d.time == h.time && d.kind == h.kind
    ensures d.thoughts == h.thoughts && d.details == h.details && d.savedAt == isoformat(h.savedAt)
  {
    ItemData(h.id, h.userId, h.time, h.kind, h.thoughts, h.details, isoformat(h.savedAt))
  }

  /** The login decision on a users table; `check` is werkzeug's `check_password_hash`. */
  function LoginResponse(users: seq<User>, req: Option<LoginRequest>, check: (string, string) -> bool): (r: FlaskResponse)
    ensures r.status == 200 || r.status == 400 || r.status == 401
    ensures r.status == 400 <==> !(req.Some? && Given(req.value.username) && Given(req.value.password))
    ensures r.status == 400 ==> r.body == Msg("Missing username or password")
    ensures r.status == 401 ==> r.body == Msg("Invalid username or password")
    ensures r.status == 200 ==>
      exists k :: 0 <= k < |users|
        && users[k].username == req.value.username.value
        && check(users[k].password, req.value.password.value)
        && r.body == MsgUser("Login successful", WithoutPassword(users[k]))
  {
    if !(req.Some? && Given(req.value.username) && Given(req.value.password)) then
      FlaskResponse(400, Msg("Missing username or password"))
    else
      match FirstWithUsername(users, req.value.username.value)
      case None => FlaskResponse(401, Msg("Invalid username or password"))
      case Some(k) =>
        if !check(users[k].password, req.value.password.value) then
          FlaskResponse(401, Msg("Invalid username or password"))
        else
          FlaskResponse(200, MsgUser("Login successful", WithoutPassword(users[k])))
  }

  /** With unique accounts, login succeeds exactly for a stored username whose hash `check` accepts. */
  lemma LoginAcceptsStoredCredentials(users: seq<User>, username: string, password: string,
                                      check: (string, string) -> bool)
    requires UniqueAccounts(users)
    requires username != "" && password != ""
    ensures LoginResponse(users, Some(LoginRequest(Some(username), Some(password))), check).status == 200
      <==> exists k :: 0 <= k < |users| && users[k].username == username && check(users[k].password, password)
  {
    if k :| 0 <= k < |users| && users[k].username == username && check(users[k].password, password) {
      var found := FirstWithUsername(users, username);
      assert found.Some?;
      assert found.value == k;
    }
  }

  /** A user just registered with a hash that `check` accepts for the password can log in. */
  lemma LoginAfterRegister(users: seq<User>, id: int, username: string, email: string, password: string,
                           hashed: string, check: (string, string) -> bool)
    requires username != "" && password != ""
    requires !Taken(users, username, email)
    requires check(hashed, password)
    ensures LoginResponse(users + [User(id, username, hashed, email)],
                          Some(LoginRequest(Some(username), Some(password))), check)
      == FlaskResponse(200, MsgUser("Login successful", PublicUser(id, username, email)))
  {
    var all := users + [User(id, username, hashed, email)];
    assert all[|users|].username == username;
    assert forall k :: 0 <= k < |users| ==> all[k] == users[k];
    assert FirstWithUsername(all, username) == Some(|users|);
  }

  /** Deleting history rows cannot break the foreign key. */
  lemma RemoveKeepsReferences(items: seq<HistoryItem>, users: seq<User>, id: int)
    requires ReferencesUsers(items, users)
    ensures ReferencesUsers(RemoveById(items, id), users)
  {
    var rest := RemoveById(items, id);
    RemoveByIdMembers(items, id);
    forall i | 0 <= i < |rest| ensures exists j :: 0 <= j < |users| && users[j].id == rest[i].userId {
      var k :| 0 <= k < |items| && items[k] == rest[i];
    }
  }

  /** Primary keys follow insertion order below the next ids; the unique and foreign-key constraints hold. */
  ghost predicate ConsistentTables(users: seq<User>, items: seq<HistoryItem>, nextUserId: int, nextItemId: int) {
    && 1 <= nextUserId && 1 <= nextItemId
    && (forall i, j :: 0 <= i < j < |users| ==> users[i].id < users[j].id)
    && (forall u :: u in users ==> 1 <= u.id < nextUserId)
    && UniqueAccounts(users)
    && IdsIncreasing(items)
    && (forall h :: h in items ==> 1 <= h.id < nextItemId)
    && ReferencesUsers(items, users)
  }

  /** Registering a user whose username and email are both new keeps the tables consistent. */
  lemma RegisterKeepsConsistent(users: seq<User>, items: seq<HistoryItem>, nextUserId: int, nextItemId: int, u: User)
    requires ConsistentTables(users, items, nextUserId, nextItemId)
    requires !Taken(users, u.username, u.email) && u.id == nextUserId
    ensures ConsistentTables(users + [u], items, nextUserId + 1, nextItemId)
  {
    AppendUserKeepsReferences(items, users, u);
    AppendUserKeepsKeys(users, u);
    forall v | v in users + [u] ensures 1 <= v.id < nextUserId + 1 {
      if v != u {
        assert v in users;
      }
    }
  }

  /** A new user row cannot invalidate any existing foreign key. */
  lemma AppendUserKeepsReferences(items: seq<HistoryItem>, users: seq<User>, u: User)
    requires ReferencesUsers(items, users)
    ensures ReferencesUsers(items, users + [u])
  {
    var all := users + [u];
    forall i | 0 <= i < |items| ensures exists j :: 0 <= j < |all| && all[j].id == items[i].userId {
      var k :| 0 <= k < |users| && users[k].id == items[i].userId;
      assert all[k] == users[k];
    }
    assert forall i :: 0 <= i < |items| ==> exists j :: 0 <= j < |all| && all[j].id == items[i].userId;
  }

  /** A user with a fresh username and email and the largest id keeps ids ordered and accounts unique. */
  lemma AppendUserKeepsKeys(users: seq<User>, u: User)
    requires forall i, j :: 0 <= i < j < |users| ==> users[i].id < users[j].id
    requires forall v :: v in users ==> v.id < u.id
    requires UniqueAccounts(users)
    requires !Taken(users, u.username, u.email)
    ensures var all := users + [u];
      && (forall i, j :: 0 <= i < j < |all| ==> all[i].id < all[j].id)
      && UniqueAccounts(all)
  {
    var all := users + [u];
    forall i, j | 0 <= i < j < |all|
      ensures all[i].id < all[j].id
      ensures all[i].id != all[j].id && all[i].username != all[j].username && all[i].email != all[j].email
    {
      assert all[i] == users[i] && users[i] in users;
      if j < |users| {
        assert all[j] == users[j];
      } else {
        assert all[j] == u;
      }
    }
  }

  /** Adding a row for an existing user, with the next id, keeps the tables consistent. */
  lemma CreateKeepsConsistent(users: seq<User>, items: seq<HistoryItem>, nextUserId: int, nextItemId: int,
                              h: HistoryItem, j: nat)
    requires ConsistentTables(users, items, nextUserId, nextItemId)
    requires j < |users| && users[j].id == h.userId && h.id == nextItemId
    ensures ConsistentTables(users, items + [h], nextUserId, nextItemId + 1)
  {
    var all := items + [h];
    forall i | 0 <= i < |all| ensures exists k :: 0 <= k < |users| && users[k].id == all[i].userId {
      if i < |items| {
        assert all[i] == items[i];
      } else {
        assert all[i] == h;
      }
    }
    AppendKeepsIdsIncreasing(items, h);
  }

  /** Deleting rows keeps the tables consistent. */
  lemma DeleteKeepsConsistent(users: seq<User>, items: seq<HistoryItem>, nextUserId: int, nextItemId: int, id: int)
    requires ConsistentTables(users, items, nextUserId, nextItemId)
    ensures ConsistentTables(users, RemoveById(items, id), nextUserId, nextItemId)
  {
    RemoveByIdMembers(items, id);
    RemoveByIdKeepsOrder(items, id);
    RemoveKeepsReferences(items, users, id);
  }

  class Database {
    var users: seq<User>
    var items: seq<HistoryItem>
    var nextUserId: int
    var nextItemId: int

    ghost predicate Valid()
      reads this
    {
      ConsistentTables(users, items, nextUserId, nextItemId)
    }

    constructor()
      ensures Valid()
      ensures users == [] && items == [] && nextUserId == 1 && nextItemId == 1
    {
      users := [];
      items := [];
      nextUserId := 1;
      nextItemId := 1;
    }

    /** POST /api/users/register; `hashed` is what `generate_password_hash(password)` returns. */
    method Register(req: Option<RegisterRequest>, hashed: string, commitOk: bool) returns (resp: FlaskResponse)
      requires Valid()
      modifies this
      ensures Valid()
      ensures !(req.Some? && Given(req.value.username) && Given(req.value.email) && Given(req.value.password)) ==>
        resp == FlaskResponse(400, Msg("Missing username, email, or password")) && unchanged(this)
      ensures req.Some? && Given(req.value.username) && Given(req.value.email) && Given(req.value.password) ==>
        var username, email := req.value.username.value, req.value.email.value;
        && (Taken(old(users), username, email) ==>
              resp == FlaskResponse(400, Msg("User with this username or email already exists")) && unchanged(this))
        && (!Taken(old(users), username, email) && !commitOk ==>
              resp == FlaskResponse(500, MsgError("Failed to register user")) && unchanged(this))
        && (!Taken(old(users), username, email) && commitOk ==>
              && users == old(users) + [User(old(nextUserId), username, hashed, email)]
              && nextUserId == old(nextUserId) + 1
              && items == old(items) && nextItemId == old(nextItemId)
              && resp == FlaskResponse(201, MsgUser("User registered successfully",
                                                    PublicUser(old(nextUserId), username, email))))
    {
      if !(req.Some? && Given(req.value.username) && Given(req.value.email) && Given(req.value.password)) {
        return FlaskResponse(400, Msg("Missing username, email, or password"));
      }
      var username, email := req.value.username.value, req.value.email.value;
      if Taken(users, username, email) {
        return FlaskResponse(400, Msg("User with this username or email already exists"));
      }
      if !commitOk {
        return FlaskResponse(500, MsgError("Failed to register user"));
      }
      var user := User(nextUserId, username, hashed, email);
      RegisterKeepsConsistent(users, items, nextUserId, nextItemId, user);
      users := users + [user];
      nextUserId := nextUserId + 1;
      resp := FlaskResponse(201, MsgUser("User registered successfully", WithoutPassword(user)));
    }

    /** POST /api/users/login. */
    function Login(req: Option<LoginRequest>, check: (string, string) -> bool): FlaskResponse
      reads this
    {
      LoginResponse(users, req, check)
    }

    /** POST /api/history/. */
    method CreateHistoryItem(req: Option<HistoryRequest>, dumps: Json -> string, now: int,
                             isoformat: int -> string, commitOk: bool)
      returns (resp: FlaskResponse)
      requires Valid()
      modifies this
      ensures Valid()
      ensures users == old(users) && nextUserId == old(nextUserId)
      ensures req.None? ==> resp == FlaskResponse(400, Msg("Request body must be JSON")) && unchanged(this)
      ensures req.Some? && !FieldsGiven(req.value) ==>
        resp == FlaskResponse(400, Msg("Missing required fields: userId, time, type")) && unchanged(this)
      ensures req.Some? && FieldsGiven(req.value) && FindUser(old(users), req.value.userId.value).None? ==>
        resp == FlaskResponse(404, Msg("User with ID " + IntToString(req.value.userId.value) + " not found"))
        && unchanged(this)
      ensures req.Some? && FieldsGiven(req.value) && FindUser(old(users), req.value.userId.value).Some? && !commitOk ==>
        resp == FlaskResponse(500, MsgError("Failed to create history item")) && unchanged(this)
      ensures req.Some? && FieldsGiven(req.value) && FindUser(old(users), req.value.userId.value).Some? && commitOk ==>
        var item := NewRow(req.value, old(nextItemId), NormalizeDetails(req.value.details, dumps), now);
        && items == old(items) + [item] && nextItemId == old(nextItemId) + 1
        && resp == FlaskResponse(201, MsgItem("History item created successfully", ToItemData(item, isoformat)))
    {
      if req.None? {
        return FlaskResponse(400, Msg("Request body must be JSON"));
      }
      var r := req.value;
      if !FieldsGiven(r) {
        return FlaskResponse(400, Msg("Missing required fields: userId, time, type"));
      }
      var userId := r.userId.value;
      if FindUser(users, userId).None? {
        return FlaskResponse(404, Msg("User with ID " + IntToString(userId) + " not found"));
      }
      var details := NormalizeDetails(r.details, dumps);
      if !commitOk {
        return FlaskResponse(500, MsgError("Failed to create history item"));
      }
      var item := NewRow(r, nextItemId, details, now);
      var owner := FindUser(users, userId).value;
      var j :| 0 <= j < |users| && users[j] == owner;
      CreateKeepsConsistent(users, items, nextUserId, nextItemId, item, j);
      items := items + [item];
      nextItemId := nextItemId + 1;
      resp := FlaskResponse(201, MsgItem("History item created successfully", ToItemData(item, isoformat)));
    }

    /** The rows `filter_by(user_id).order_by(saved_at.desc())` returns, ties resolved in insertion order. */
    function UserRows(userId: int): (rows: seq<HistoryItem>)
      reads this
      ensures forall x :: x in rows <==> x in items && x.userId == userId
      ensures SavedAtDescending(rows)
    {
      var mine := ItemsOfUser(items, userId);
      ItemsOfUserMembers(items, userId);
      SortIsDescending(mine);
      var rows := SortNewestFirst(mine);
      assert forall x :: x in rows <==> x in multiset(mine);
      rows
    }

    /** GET /api/history/<int:user_id>: the loop that serialises each row. */
    /** Each of the user's rows is listed exactly as often as it is stored. */
    lemma UserRowsAreTheUsersRows(userId: int)
      ensures multiset(UserRows(userId)) == multiset(ItemsOfUser(items, userId))
    {
    }

    method GetHistory(userId: nat, isoformat: int -> string) returns (resp: FlaskResponse)
      requires Valid()
      ensures FindUser(users, userId).None? <==>
        resp == FlaskResponse(404, Msg("User with ID " + IntToString(userId) + " not found"))
      ensures FindUser(users, userId).Some? ==>
        && resp.status == 200 && resp.body.ItemList?
        && |resp.body.items| == |UserRows(userId)|
        && forall k :: 0 <= k < |resp.body.items| ==> resp.body.items[k] == ToItemData(UserRows(userId)[k], isoformat)
    {
      if FindUser(users, userId).None? {
        return FlaskResponse(404, Msg("User with ID " + IntToString(userId) + " not found"));
      }
      var rows := UserRows(userId);
      var data: seq<ItemData> := [];
      var i := 0;
      while i < |rows|
        invariant 0 <= i <= |rows|
        invariant |data| == i
        invariant forall k :: 0 <= k < i ==> data[k] == ToItemData(rows[k], isoformat)
      {
        data := data + [ToItemData(rows[i], isoformat)];
        i := i + 1;
      }
      resp := FlaskResponse(200, ItemList(data));
    }

    /** DELETE /api/history/<int:item_id>. */
    method DeleteHistoryItem(itemId: nat, commitOk: bool) returns (resp: FlaskResponse)
      requires Valid()
      modifies this
      ensures Valid()
      ensures users == old(users) && nextUserId == old(nextUserId) && nextItemId == old(nextItemId)
      ensures FindItem(old(items), itemId).None? ==>
        resp == FlaskResponse(404, Msg("History item with ID " + IntToString(itemId) + " not found"))
        && items == old(items)
      ensures FindItem(old(items), itemId).Some? && !commitOk ==>
        resp == FlaskResponse(500, MsgError("Failed to delete history item")) && items == old(items)
      ensures FindItem(old(items), itemId).Some? && commitOk ==>
        resp == FlaskResponse(204, NoContent) && items == RemoveById(old(items), itemId)
    {
      if FindItem(items, itemId).None? {
        return FlaskResponse(404, Msg("History item with ID " + IntToString(itemId) + " not found"));
      }
      if !commitOk {
        return FlaskResponse(500, MsgError("Failed to delete history item"));
      }
      DeleteKeepsConsistent(users, items, nextUserId, nextItemId, itemId);
      items := RemoveById(items, itemId);
      resp := FlaskResponse(204, NoContent);
    }
  }
}

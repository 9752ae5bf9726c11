/**
 * The two relations both backends store (shared/schema.ts for the
 * TypeScript server, app/models/user.py and app/models/history_item.py for
 * the Flask one): their row shapes, the insert shapes that leave `id` and
 * `savedAt` to the store, the declared constraints, and the insert-schema
 * check a request body goes through.
 */
module Schema {
  import opened Wrappers
  import opened Json

  /** A `users` row. `password` is plain text in the TypeScript store and a hash in the Flask one. */
  datatype User = User(id: int, username: string, password: string, email: string)

  /** What `insertUserSchema` admits: the columns without the serial `id`. */
  datatype InsertUser = InsertUser(username: string, password: string, email: string)

  /** A user as responses show it: every field but the password. */
  datatype PublicUser = PublicUser(id: int, username: string, email: string)

  /**
   * A `history_items` row; `kind` is the `type` column. `thoughts` and
   * `details` are the nullable columns, `savedAt` the timestamp the store sets.
   */
  datatype HistoryItem = HistoryItem(
    id: int, userId: int, time: string, kind: string,
    thoughts: Option<string>, details: Option<string>, savedAt: int)

  /** What `insertHistoryItemSchema` admits: neither `id` nor `savedAt` is supplied by a caller. */
  datatype InsertHistoryItem = InsertHistoryItem(
    userId: int, time: string, kind: string, thoughts: Option<string>, details: Option<string>)

  function WithoutPassword(u: User): PublicUser {
    PublicUser(u.id, u.username, u.email)
  }

  /** The row a store creates from an insert and the id it assigns. */
  function NewUser(insert: InsertUser, id: int): (u: User)
    ensures u.id == id && InsertUser(u.username, u.password, u.email) == insert
  {
    User(id, insert.username, insert.password, insert.email)
  }

  /** The row a store creates from an insert, the id it assigns and the time it stamps. */
  function NewHistoryItem(insert: InsertHistoryItem, id: int, savedAt: int): (h: HistoryItem)
    ensures h.id == id && h.savedAt == savedAt
    ensures InsertHistoryItem(h.userId, h.time, h.kind, h.thoughts, h.details) == insert
  {
    HistoryItem(id, insert.userId, insert.time, insert.kind, insert.thoughts, insert.details, savedAt)
  }

  /**
   * `insertUserSchema.parse`: the three not-null text columns must be
   * strings; anything else raises a validation error (None).
   */
  function ParseInsertUser(username: Option<Json>, password: Option<Json>, email: Option<Json>): (r: Option<InsertUser>)
    ensures r.Some? <==>
      && username.Some? && username.value.Str?
      && password.Some? && password.value.Str?
      && email.Some? && email.value.Str?
  {
    match (username, password, email)
    case (Some(Str(u)), Some(Str(p)), Some(Str(e))) => Some(InsertUser(u, p, e))
    case _ => None
  }

  /** Every insert shape passes the schema when its fields arrive as strings. */
  lemma ParseInsertUserAccepts(insert: InsertUser)
    ensures ParseInsertUser(Some(Str(insert.username)), Some(Str(insert.password)), Some(Str(insert.email)))
      == Some(insert)
  {
  }

  /**
   * `insertHistoryItemSchema.parse` of the record the POST handler builds:
   * `userId` must be a number and `time` and `type` strings; `thoughts` and
   * `details` are optional strings and arrive here already normalised.
   */
  function ParseInsertHistoryItem(
    userId: Option<Json>, time: Option<Json>, kind: Option<Json>,
    thoughts: Option<string>, details: Option<string>): (r: Option<InsertHistoryItem>)
    ensures r.Some? <==>
      && userId.Some? && userId.value.Number?
      && time.Some? && time.value.Str?
      && kind.Some? && kind.value.Str?
    ensures r.Some? ==>
      && r.value.userId == userId.value.n && r.value.time == time.value.s && r.value.kind == kind.value.s
      && r.value.thoughts == thoughts && r.value.details == details
  {
    match (userId, time, kind)
    case (Some(Number(n)), Some(Str(t)), Some(Str(k))) => Some(InsertHistoryItem(n, t, k, thoughts, details))
    case _ => None
  }

  /** Every insert shape passes the schema when its fields arrive with their JSON types. */
  lemma ParseInsertHistoryItemAccepts(insert: InsertHistoryItem)
    ensures ParseInsertHistoryItem(Some(Number(insert.userId)), Some(Str(insert.time)), Some(Str(insert.kind)),
      insert.thoughts, insert.details) == Some(insert)
  {
  }

  /** The `unique()` constraints: no two users share an id, a username or an email. */
  ghost predicate UniqueAccounts(users: seq<User>) {
    forall i, j :: 0 <= i < j < |users| ==>
      users[i].id != users[j].id && users[i].username != users[j].username && users[i].email != users[j].email
  }

  /** No two users share a username: what the register handlers maintain. */
  ghost predicate UniqueUsernames(users: seq<User>) {
    forall i, j :: 0 <= i < j < |users| ==> users[i].username != users[j].username
  }

  /** The foreign key `user_id` references `users.id`. */
  ghost predicate ReferencesUsers(items: seq<HistoryItem>, users: seq<User>) {
    forall i :: 0 <= i < |items| ==> exists j :: 0 <= j < |users| && users[j].id == items[i].userId
  }

  /** Declared column lengths of the Flask models. */
  const USERNAME_LENGTH := 80
  const PASSWORD_LENGTH := 120
  const EMAIL_LENGTH := 120
  const TIME_LENGTH := 80
  const TYPE_LENGTH := 80
  const THOUGHTS_LENGTH := 500

  /** A user row within the declared `String(n)` lengths. */
  predicate FitsUserColumns(u: User) {
    |u.username| <= USERNAME_LENGTH && |u.password| <= PASSWORD_LENGTH && |u.email| <= EMAIL_LENGTH
  }

  /** A history row within the declared `String(n)` lengths; `details` is unbounded `Text`. */
  predicate FitsHistoryColumns(h: HistoryItem) {
    && |h.time| <= TIME_LENGTH && |h.kind| <= TYPE_LENGTH
    && (h.thoughts.Some? ==> |h.thoughts.value| <= THOUGHTS_LENGTH)
  }

  /**
   * The items of one user in storage order: `filter(item => item.userId ===
   * userId)`, and the Flask `User.history_items` relationship.
   */
  function ItemsOfUser(items: seq<HistoryItem>, userId: int): (r: seq<HistoryItem>)
    ensures multiset(r) <= multiset(items)
  {
    if items == [] then []
    else
      assert items == [items[0]] + items[1..];
      if items[0].userId == userId then [items[0]] + ItemsOfUser(items[1..], userId)
      else ItemsOfUser(items[1..], userId)
  }

  /** An item is listed for a user exactly when it is stored and belongs to that user. */
  lemma {:induction false} ItemsOfUserMembers(items: seq<HistoryItem>, userId: int)
    ensures forall x :: x in ItemsOfUser(items, userId) <==> x in items && x.userId == userId
  {
    if items != [] {
      ItemsOfUserMembers(items[1..], userId);
      assert items == [items[0]] + items[1..];
    }
  }
}

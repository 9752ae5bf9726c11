/**
 * The Express handlers of the TypeScript server (server/routes.ts) over the
 * in-memory store. A handler is a function of the store and the request
 * when it only reads, and a method that modifies the store when it writes.
 * Logging is left out; the clock, `JSON.stringify` and the outcome of the
 * `ensureUserExists` call are parameters.
 */
module ServerRoutes {
  import opened Wrappers
  import opened Text
  import opened Json
  import opened Schema
  import opened HistoryOrder
  import opened Storage

  /** A response body. `ValidationIssues` stands for a ZodError's message text. */
  datatype Body =
    | Message(text: string)
    | ValidationIssues
    | UserBody(user: PublicUser)
    | ItemBody(item: HistoryItem)
    | ItemsBody(items: seq<HistoryItem>)
    | NoBody

  datatype Response = Response(status: int, body: Body)

  /** The PostgreSQL integer limit the POST handler folds user ids under. */
  const MAX_USER_ID := 2147483647
  /** How many characters of `details` are kept. */
  const DETAILS_LIMIT := 5000

  /** A field that is present and truthy. */
  predicate TruthyField(body: Json, name: string) {
    Field(body, name).Some? && JsTruthy(Field(body, name).value)
  }

  // ---------------------------------------------------------------- users

  /** POST /api/users/register. */
  method Register(storage: MemStorage, body: Json) returns (resp: Response)
    requires storage.Valid()
    modifies storage
    ensures storage.Valid()
    ensures var parsed := ParseInsertUser(Field(body, "username"), Field(body, "password"), Field(body, "email"));
      && (parsed.None? ==>
            resp == Response(400, ValidationIssues) && unchanged(storage))
      && (parsed.Some? && old(storage.GetUserByUsername(parsed.value.username)).Some? ==>
            resp == Response(400, Message("Username already taken")) && unchanged(storage))
      && (parsed.Some? && old(storage.GetUserByUsername(parsed.value.username)).None? ==>
            && resp == Response(201, UserBody(WithoutPassword(NewUser(parsed.value, old(storage.userId)))))
            && storage.users == old(storage.users) + [NewUser(parsed.value, old(storage.userId))]
            && storage.userId == old(storage.userId) + 1
            && storage.historyItems == old(storage.historyItems) && storage.historyId == old(storage.historyId))
    ensures UniqueUsernames(old(storage.users)) ==> UniqueUsernames(storage.users)
  {
    var parsed := ParseInsertUser(Field(body, "username"), Field(body, "password"), Field(body, "email"));
    if parsed.None? {
      return Response(400, ValidationIssues);
    }
    var existing := storage.GetUserByUsername(parsed.value.username);
    if existing.Some? {
      return Response(400, Message("Username already taken"));
    }
    var user := storage.CreateUser(parsed.value);
    resp := Response(201, UserBody(WithoutPassword(user)));
  }

  /** POST /api/users/login; nothing the in-memory store does throws, so the 500 path is unreachable. */
  function Login(storage: MemStorage, body: Json): (resp: Response)
    reads storage
    ensures resp.status == 200 || resp.status == 400 || resp.status == 401
    ensures resp.status == 400 <==> !(TruthyField(body, "username") && TruthyField(body, "password"))
    ensures resp.status == 400 ==> resp.body == Message("Username and password required")
    ensures resp.status == 401 ==> resp.body == Message("Invalid credentials")
    ensures resp.status == 200 ==>
      && Field(body, "username").value.Str? && Field(body, "password").value.Str?
      && resp.body.UserBody?
      && exists u :: u in storage.users
           && u.username == Field(body, "username").value.s
           && u.password == Field(body, "password").value.s
           && resp.body.user == WithoutPassword(u)
  {
    if !(TruthyField(body, "username") && TruthyField(body, "password")) then
      Response(400, Message("Username and password required"))
    else
      var username := Field(body, "username").value;
      var password := Field(body, "password").value;
      var user := if username.Str? then storage.GetUserByUsername(username.s) else None;
      if user.None? || !(password.Str? && password.s == user.value.password) then
        Response(401, Message("Invalid credentials"))
      else
        Response(200, UserBody(WithoutPassword(user.value)))
  }

  /** The body a client sends to log in. */
  function Credentials(username: string, password: string): Json {
    Object(map["username" := Str(username), "password" := Str(password)])
  }

  /** With unique usernames, login succeeds exactly for a stored username and password pair. */
  lemma LoginAcceptsStoredCredentials(storage: MemStorage, username: string, password: string)
    requires UniqueUsernames(storage.users)
    requires username != "" && password != ""
    ensures Login(storage, Credentials(username, password)).status == 200
      <==> exists u :: u in storage.users && u.username == username && u.password == password
  {
    var body := Credentials(username, password);
    assert Field(body, "username") == Some(Str(username));
    assert Field(body, "password") == Some(Str(password));
    if u :| u in storage.users && u.username == username && u.password == password {
      var found := FirstWithUsername(storage.users, username);
      var k :| 0 <= k < |storage.users| && storage.users[k] == u;
      assert found.Some?;
      assert storage.users[found.value] == u;
    }
  }

  // ---------------------------------------------------------------- POST /api/history

  /** A step that may raise a TypeError. */
  datatype Step<T> = Threw | Done(value: T)

  /** Ids above the PostgreSQL integer limit are folded with `%`; everything else passes through. */
  function ReduceUserId(userId: Option<Json>): (r: Option<Json>)
    ensures r.Some? <==> userId.Some?
    ensures r.Some? ==> (r.value.Number? <==> userId.value.Number?)
    ensures r.Some? && !userId.value.Number? ==> r == userId
    ensures r.Some? && r.value.Number? ==>
      && r.value.n <= MAX_USER_ID
      && r.value.n % MAX_USER_ID == userId.value.n % MAX_USER_ID
      && (userId.value.n <= MAX_USER_ID ==> r.value.n == userId.value.n)
    ensures userId.Some? && userId.value.Number? && userId.value.n > MAX_USER_ID ==>
      && r == Some(Number(userId.value.n % MAX_USER_ID))
      && 0 <= r.value.n < MAX_USER_ID
  {
    match userId
    case Some(Number(n)) => if n > MAX_USER_ID then Some(Number(n % MAX_USER_ID)) else userId
    case _ => userId
  }

  /** Two different ids can land on the same user: 2147483648 is folded onto 1. */
  lemma UserIdsCollide()
    ensures ReduceUserId(Some(Number(MAX_USER_ID + 1))) == ReduceUserId(Some(Number(1))) == Some(Number(1))
  {
  }

  /**
   * `thoughts && thoughts.trim()`: a truthy non-string has no `trim` and
   * throws; a string is kept as sent unless it is blank.
   */
  function KeepThoughts(thoughts: Option<Json>): (r: Step<Option<string>>)
    ensures r.Threw? <==> thoughts.Some? && JsTruthy(thoughts.value) && !thoughts.value.Str?
    ensures r.Done? && r.value.Some? ==>
      thoughts == Some(Str(r.value.value)) && Trim(r.value.value, IsJsSpace) != ""
    ensures thoughts.Some? && thoughts.value.Str? && Trim(thoughts.value.s, IsJsSpace) != "" ==>
      r == Done(Some(thoughts.value.s))
  {
    match thoughts
    case None => Done(None)
    case Some(v) =>
      if !JsTruthy(v) then Done(None)
      else if !v.Str? then Threw
      else if Trim(v.s, IsJsSpace) != "" then Done(Some(v.s))
      else Done(None)
  }

  /** Truthy details are kept as a string (non-strings through JSON.stringify), cut at 5000 characters. */
  function KeepDetails(details: Option<Json>, stringify: Json -> string): (r: Option<string>)
    ensures r.Some? <==> details.Some? && JsTruthy(details.value)
    ensures r.Some? ==>
      var source := if details.value.Str? then details.value.s else stringify(details.value);
      && r.value <= source && |r.value| <= DETAILS_LIMIT
      && (|source| <= DETAILS_LIMIT ==> r.value == source)
      && (|source| > DETAILS_LIMIT ==> |r.value| == DETAILS_LIMIT)
  {
    match details
    case None => None
    case Some(v) =>
      if !JsTruthy(v) then None
      else Some(Prefix(if v.Str? then v.s else stringify(v), DETAILS_LIMIT))
  }

  /** What the POST handler decides before it writes: a response, or the row to insert. */
  datatype Outcome = Reject(resp: Response) | Accept(insert: InsertHistoryItem)

  const FAILED_TO_SAVE := Response(500, Message("Failed to save history item"))

  /**
   * The checks of POST /api/history in the order the handler makes them.
   * `ensure` is the outcome of `storage.ensureUserExists(userId)`: `None`
   * when the call throws.
   */
  function PreparePost(body: Json, ensure: Option<bool>, stringify: Json -> string): (o: Outcome)
    ensures ensure.None? ==> o == Reject(FAILED_TO_SAVE)
    ensures ensure == Some(false) ==> o == Reject(Response(400, Message("Failed to validate user")))
    ensures ensure == Some(true) && KeepThoughts(Field(body, "thoughts")).Threw? ==> o == Reject(FAILED_TO_SAVE)
    ensures
      && ensure == Some(true) && KeepThoughts(Field(body, "thoughts")).Done?
      && ParseInsertHistoryItem(ReduceUserId(Field(body, "userId")), Field(body, "time"), Field(body, "type"),
                                KeepThoughts(Field(body, "thoughts")).value,
                                KeepDetails(Field(body, "details"), stringify)).None?
      ==> o == Reject(Response(400, ValidationIssues))
    ensures o.Reject? ==> o.resp.status == 400 || o.resp.status == 500
    ensures o.Accept? <==>
      && ensure == Some(true)
      && KeepThoughts(Field(body, "thoughts")).Done?
      && ReduceUserId(Field(body, "userId")).Some? && ReduceUserId(Field(body, "userId")).value.Number?
      && Field(body, "time").Some? && Field(body, "time").value.Str?
      && Field(body, "type").Some? && Field(body, "type").value.Str?
    ensures o.Accept? ==>
      && o.insert.userId == ReduceUserId(Field(body, "userId")).value.n
      && o.insert.userId <= MAX_USER_ID
      && o.insert.time == Field(body, "time").value.s
      && o.insert.kind == Field(body, "type").value.s
      && o.insert.thoughts == KeepThoughts(Field(body, "thoughts")).value
      && o.insert.details == KeepDetails(Field(body, "details"), stringify)
      && (o.insert.details.Some? ==> |o.insert.details.value| <= DETAILS_LIMIT)
  {
    var userId := ReduceUserId(Field(body, "userId"));
    match ensure
    case None => Reject(FAILED_TO_SAVE)
    case Some(false) => Reject(Response(400, Message("Failed to validate user")))
    case Some(true) =>
      match KeepThoughts(Field(body, "thoughts"))
      case Threw => Reject(FAILED_TO_SAVE)
      case Done(thoughts) =>
        var details := KeepDetails(Field(body, "details"), stringify);
        match ParseInsertHistoryItem(userId, Field(body, "time"), Field(body, "type"), thoughts, details)
        case None => Reject(Response(400, ValidationIssues))
        case Some(insert) => Accept(insert)
  }

  /** POST /api/history: a rejected request leaves the store alone, an accepted one appends one row. */
  method PostHistory(storage: MemStorage, body: Json, ensure: Option<bool>, stringify: Json -> string, now: int)
    returns (resp: Response)
    requires storage.Valid()
    modifies storage
    ensures storage.Valid()
    ensures PreparePost(body, ensure, stringify).Reject? ==>
      resp == PreparePost(body, ensure, stringify).resp && unchanged(storage)
    ensures PreparePost(body, ensure, stringify).Accept? ==>
      var item := NewHistoryItem(PreparePost(body, ensure, stringify).insert, old(storage.historyId), now);
      && resp == Response(201, ItemBody(item))
      && storage.historyItems == old(storage.historyItems) + [item]
      && storage.historyId == old(storage.historyId) + 1
      && storage.users == old(storage.users) && storage.userId == old(storage.userId)
  {
    match PreparePost(body, ensure, stringify)
    case Reject(r) =>
      resp := r;
    case Accept(insert) =>
      var item := storage.CreateHistoryItem(insert, now);
      resp := Response(201, ItemBody(item));
  }

  // ---------------------------------------------------------------- parseInt

  /** The longest run of digits `s` starts with. */
  function LeadingDigits(s: string): (d: string)
    ensures AllDigits(d)
  {
    if s != [] && IsDigit(s[0]) then [s[0]] + LeadingDigits(s[1..]) else []
  }

  /** The digits read are a prefix of `s`, and are all of them: the next character is not a digit. */
  lemma {:induction false} LeadingDigitsIsLongest(s: string)
    ensures var d := LeadingDigits(s);
      && d <= s
      && (|d| < |s| ==> !IsDigit(s[|d|]))
  {
    if s != [] && IsDigit(s[0]) {
      LeadingDigitsIsLongest(s[1..]);
      assert s == [s[0]] + s[1..];
    }
  }

  /** `s` without one leading sign character. */
  function Unsigned(t: string): string {
    if t != [] && (t[0] == '+' || t[0] == '-') then t[1..] else t
  }

  /**
   * `parseInt(s, 10)`: leading white space and one sign are skipped, then
   * as many digits as there are are read; no digit at all is NaN (`None`).
   */
  function ParseInt(s: string): (r: Option<int>)
    ensures r.None? <==>
      var u := Unsigned(TrimStart(s, IsJsSpace)); u == [] || !IsDigit(u[0])
  {
    SignedLeading(TrimStart(s, IsJsSpace))
  }

  /** The leading digits after one optional sign, negated after '-'. */
  function SignedLeading(t: string): Option<int> {
    var d := LeadingDigits(Unsigned(t));
    if d == [] then None else if t[0] == '-' then Some(-(DecimalValue(d) as int)) else Some(DecimalValue(d) as int)
  }

  lemma {:induction false} LeadingDigitsOf(d: string, tail: string)
    requires AllDigits(d)
    requires tail == [] || !IsDigit(tail[0])
    ensures LeadingDigits(d + tail) == d
  {
    if d != [] {
      assert (d + tail)[1..] == d[1..] + tail;
      LeadingDigitsOf(d[1..], tail);
      assert d == [d[0]] + d[1..];
    } else {
      assert d + tail == tail;
    }
  }

  /** `parseInt` reads back the decimal rendering of an integer, whatever non-digit text follows it. */
  lemma ParseIntOfIntToString(i: int, tail: string)
    requires tail == [] || !IsDigit(tail[0])
    ensures ParseInt(IntToString(i) + tail) == Some(i)
  {
    if i < 0 {
      ParseIntOfNegatedNat(-i, tail);
    } else {
      ParseIntOfNat(i, tail);
    }
  }

  lemma ParseIntOfNat(n: nat, tail: string)
    requires tail == [] || !IsDigit(tail[0])
    ensures ParseInt(NatToString(n) + tail) == Some(n)
  {
    DecimalValueOfNatToString(n);
    ParseIntOfDigits(NatToString(n), tail);
  }

  lemma ParseIntOfNegatedNat(n: nat, tail: string)
    requires tail == [] || !IsDigit(tail[0])
    ensures ParseInt("-" + NatToString(n) + tail) == Some(-(n as int))
  {
    DecimalValueOfNatToString(n);
    ParseIntOfNegativeDigits(NatToString(n), tail);
  }

  /**
   * Leading white space, then an optional sign, then digits (leading zeros
   * allowed) before a non-digit: the white space and the zeros are skipped
   * and only '-' negates.
   */
  lemma ParseIntOfPadded(ws: string, sign: string, d: string, tail: string)
    requires forall i :: 0 <= i < |ws| ==> IsJsSpace(ws[i])
    requires sign == "" || sign == "+" || sign == "-"
    requires d != [] && AllDigits(d)
    requires tail == [] || !IsDigit(tail[0])
    ensures ParseInt(ws + sign + d + tail)
      == Some(if sign == "-" then -(DecimalValue(d) as int) else DecimalValue(d) as int)
  {
    var rest := sign + d + tail;
    UnsignedParts(sign, d, tail);
    assert ws + sign + d + tail == ws + rest;
    TrimStartPadded(ws, rest, IsJsSpace);
    LeadingDigitsOf(d, tail);
    SignedLeadingOf(rest, d);
  }

  /** Once the digits after the sign are known, the reading is their signed value. */
  lemma SignedLeadingOf(t: string, d: string)
    requires LeadingDigits(Unsigned(t)) == d && d != []
    ensures SignedLeading(t) == Some(if t[0] == '-' then -(DecimalValue(d) as int) else DecimalValue(d) as int)
  {
  }

  /** The pieces after the white space: a sign or a digit first, and the digits once the sign is dropped. */
  lemma UnsignedParts(sign: string, d: string, tail: string)
    requires sign == "" || sign == "+" || sign == "-"
    requires d != [] && AllDigits(d)
    ensures var rest := sign + d + tail;
      && rest != [] && !IsJsSpace(rest[0])
      && (rest[0] == '-' <==> sign == "-")
      && Unsigned(rest) == d + tail
  {
    var rest := sign + d + tail;
    assert IsDigit(d[0]);
    if sign == "" {
      assert rest == d + tail;
    } else {
      assert rest[1..] == d + tail;
    }
  }

  /** Digits before a non-digit read as their value. */
  lemma ParseIntOfDigits(d: string, tail: string)
    requires d != [] && AllDigits(d)
    requires tail == [] || !IsDigit(tail[0])
    ensures ParseInt(d + tail) == Some(DecimalValue(d) as int)
  {
    var none: string := [];
    assert none + none + d == d;
    ParseIntOfPadded(none, none, d, tail);
  }

  /** A '-', then digits before a non-digit, read as the negated value. */
  lemma ParseIntOfNegativeDigits(d: string, tail: string)
    requires d != [] && AllDigits(d)
    requires tail == [] || !IsDigit(tail[0])
    ensures ParseInt("-" + d + tail) == Some(-(DecimalValue(d) as int))
  {
    var none: string := [];
    assert none + "-" == "-";
    ParseIntOfPadded(none, "-", d, tail);
  }

  /** `parseInt(" 7")` is 7: leading white space is skipped. */
  lemma ParseIntSkipsSpace()
    ensures ParseInt(" 7") == Some(7)
  {
    var none: string := [];
    DecimalValueOfSeven();
    assert " " + none + "7" + none == " 7";
    ParseIntOfPadded(" ", none, "7", none);
  }

  /** `parseInt("+7")` is 7: a '+' sign is accepted. */
  lemma ParseIntSkipsPlus()
    ensures ParseInt("+7") == Some(7)
  {
    var none: string := [];
    DecimalValueOfSeven();
    assert none + "+" + "7" + none == "+7";
    ParseIntOfPadded(none, "+", "7", none);
  }

  /** `parseInt("007")` is 7: leading zeros are read as digits of no weight. */
  lemma ParseIntSkipsZeros()
    ensures ParseInt("007") == Some(7)
  {
    var none: string := [];
    assert DecimalValue("007") == 7 by {
      assert "007"[..2] == "00" && "00"[..1] == "0" && "0"[..0] == "";
    }
    assert none + none + "007" + none == "007";
    ParseIntOfPadded(none, none, "007", none);
  }

  lemma DecimalValueOfSeven()
    ensures DecimalValue("7") == 7
  {
    assert "7"[..0] == "";
  }

  /** A route parameter without digits is NaN. */
  lemma ParseIntRejectsWords()
    ensures ParseInt("abc") == None
  {
    assert !IsJsSpace('a');
    assert TrimStart("abc", IsJsSpace) == "abc";
    assert !IsDigit("abc"[0]);
  }

  /** A sign alone is NaN. */
  lemma ParseIntRejectsSign()
    ensures ParseInt("-") == None
  {
    assert !IsJsSpace('-');
    assert TrimStart("-", IsJsSpace) == "-";
    assert Unsigned("-") == [];
  }

  /** Trailing text after the digits is ignored. */
  lemma ParseIntIgnoresTail()
    ensures ParseInt("12abc") == Some(12)
  {
    assert NatToString(12) == "12";
    assert "12abc" == IntToString(12) + "abc";
    ParseIntOfIntToString(12, "abc");
  }

  // ---------------------------------------------------------------- GET and DELETE

  /** GET /api/history/:userId. */
  function GetHistory(storage: MemStorage, param: string): (resp: Response)
    reads storage
    requires storage.Valid()
    ensures ParseInt(param).None? <==> resp == Response(400, Message("Invalid user ID"))
    ensures ParseInt(param).Some? ==>
      && resp.status == 200 && resp.body.ItemsBody?
      && NewestFirst(resp.body.items)
      && forall x :: x in resp.body.items <==> x in storage.historyItems && x.userId == ParseInt(param).value
  {
    match ParseInt(param)
    case None => Response(400, Message("Invalid user ID"))
    case Some(userId) => Response(200, ItemsBody(storage.GetHistoryByUserId(userId)))
  }

  /** DELETE /api/history/:id: 204 whether or not an item had that id. */
  method DeleteHistory(storage: MemStorage, param: string) returns (resp: Response)
    requires storage.Valid()
    modifies storage
    ensures storage.Valid()
    ensures ParseInt(param).None? ==> resp == Response(400, Message("Invalid ID")) && unchanged(storage)
    ensures ParseInt(param).Some? ==>
      && resp == Response(204, NoBody)
      && storage.historyItems == RemoveById(old(storage.historyItems), ParseInt(param).value)
      && storage.users == old(storage.users)
      && storage.userId == old(storage.userId) && storage.historyId == old(storage.historyId)
  {
    match ParseInt(param)
    case None =>
      resp := Response(400, Message("Invalid ID"));
    case Some(id) =>
      storage.DeleteHistoryItem(id);
      resp := Response(204, NoBody);
  }
}

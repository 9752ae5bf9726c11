# MirrorTime in Dafny

MirrorTime lets a user enter a clock time such as `12:21`. It labels the time as a Mirror, Reversed or Regular hour, shows an interpretation for it, and keeps a per-user history of saved readings.

The repository has three parts:

- a React client;
- a TypeScript/Express backend with an in-memory store;
- a Python/Flask backend over a SQL table model. This part includes a script that migrates a PostgreSQL dump into it.

This project models the logic of all three parts and proves properties of that model.

| module | file | models |
|---|---|---|
| `Text` | text.dfy | The string built-ins the code relies on: JavaScript `split`, `join`, `reverse`, `trim`, `toUpperCase`/`toLowerCase` and `substring`; Python `str.strip`, decimal renderings, and a substring search. |
| `Json` | json.dfy | Request bodies as JSON values, plus JavaScript and Python truthiness. |
| `TimeUtils` | time_utils.dfy | `isMirrorHour`, `isReversedHour`, `getTimeType`, `calculateRootNumber`. |
| `TimeForm` | time_form.dfy | The `HH:MM` regular expression of the time form and its submit handler. |
| `TimeInterpretation` | time_interpretation.dfy | The lookup-or-fallback effect of `useTimeInterpretation`. |
| `Schema` | schema.dfy | Record shapes, the insert schemas, and the column constraints of both backends. |
| `HistoryOrder` | history_order.dfy | The stable "newest first" sort of history items. |
| `Storage` | mem_storage.dfy | `MemStorage`. It is a class whose two maps are sequences in insertion order and whose two counters are fields. |
| `ServerRoutes` | server_routes.dfy | The Express register, login and `/api/history` handlers, including `parseInt`. |
| `FlaskApp` | flask_app.dfy | The Flask `auth` and `history` blueprints over a `Database` class holding the two tables. |
| `Migration` | migrate_data.dfy | `parse_copy_data` and the per-row conversions of `migrate_users` and `migrate_history_items`. |
| `UseAuth` | use_auth.dfy | The client's mock `AuthProvider` state machine over local storage. |
| `Header` | header.dfy | `getInitials`. |

Foreign functions become function parameters:

- `JSON.stringify`, `json.dumps` and `strptime`;
- `generate_password_hash`, whose result is passed in;
- `check_password_hash`;
- `isoformat`;
- whether a database commit succeeds (`commitOk`).

The clock (`Date.now()`, `new Date()`, `datetime.utcnow()`) is an integer parameter `now`.

## Model

| member | source | states |
|---|---|---|
| Text.Split | client/src/lib/timeUtils.ts:22 | `split(sep)` yields at least one field and no field contains the separator |
| Text.SplitCount | client/src/lib/timeUtils.ts:22 | the number of fields is one more than the number of separators |
| Text.JoinSplit | client/src/lib/timeUtils.ts:28 | joining the fields of a split with the separator gives back the string |
| Text.SplitJoin | client/src/lib/timeUtils.ts:28 | splitting a join of separator-free fields gives back those fields |
| Text.Reverse | client/src/lib/timeUtils.ts:28 | `split('').reverse().join('')` puts character i at position length-1-i |
| Text.Trim | server/routes.ts:86 | the result is empty iff every character is white space; otherwise it starts and ends with a non-space |
| Text.TrimUnchanged | migrate_data.py:31 | a string that starts and ends with a non-space is its own strip |
| Text.TrimIsInner | server/routes.ts:86 | the trim is a contiguous piece of the input with only white space before it and after it |
| Text.TrimPadded | migrate_data.py:31 | white space around a core that starts and ends with a non-space trims to exactly that core |
| Text.Prefix | server/routes.ts:97 | `substring(0, n)` is a prefix of at most n characters: the whole string when it is short, exactly n characters otherwise |
| Text.ToUpper | client/src/components/Header.tsx:43 | each character is mapped through the ASCII upper-case map and the length is kept |
| Text.UpperChar | client/src/components/Header.tsx:43 | a lower-case ASCII letter becomes the letter 32 code points below it; every other character is kept |
| Text.LowerChar | client/src/hooks/useTimeInterpretation.ts:42-43 | an upper-case ASCII letter becomes the letter 32 code points above it; every other character is kept |
| Text.IndexOf | migrate_data.py:19-20 | the least position at or after `from` where the pattern occurs; None iff there is none |
| Text.DecimalValueOfNatToString | server/routes.ts:133 | reading a decimal rendering gives back the number |
| Json.Field | server/routes.ts:56 | a property is present iff the body is an object that has that key, and the result is its value |
| TimeUtils.IsMirrorHour | client/src/lib/timeUtils.ts:21-24 | a time without ':' is never a mirror hour, since its minutes are undefined |
| TimeUtils.IsReversedHour | client/src/lib/timeUtils.ts:26-29 | the reversed test is defined iff the time contains a ':'; without one, `minutes.split` throws |
| TimeUtils.GetTimeType | client/src/lib/timeUtils.ts:31-35 | one of three labels. "Mirror Hour" iff the hours equal the minutes. "Reversed Hour" iff not a mirror hour and the hours equal the reversed minutes. Undefined iff there is no ':' |
| TimeUtils.TimeTypeOfFields | client/src/lib/timeUtils.ts:21-35 | for any time made of two or more colon-free fields, the labels are decided by the first two fields alone |
| TimeUtils.NoColonThrows | client/src/lib/timeUtils.ts:27-28 | without a ':' the time is not a mirror hour and the classification throws |
| TimeUtils.TimeTypeOfHoursMinutes | client/src/lib/timeUtils.ts:21-35 | for colon-free h and m, `h:m` is a mirror hour iff h equals m, and its label compares h with m, then h with reversed m |
| TimeUtils.MirrorPrecedence | client/src/lib/timeUtils.ts:32 | "11:11" passes the reversed test but is labelled "Mirror Hour" |
| TimeUtils.ReversedExample | client/src/lib/timeUtils.ts:33 | "12:21" is a Reversed Hour |
| TimeUtils.RegularExample | client/src/lib/timeUtils.ts:34 | "12:34" is a Regular Hour |
| TimeUtils.RemoveFirstColon | client/src/lib/timeUtils.ts:39 | `replace(':', '')` changes nothing when there is no ':' |
| TimeUtils.RemoveFirstColonCount | client/src/lib/timeUtils.ts:39 | it removes exactly one ':' when there is one |
| TimeUtils.CharNumber | client/src/lib/timeUtils.ts:39 | `Number(c)` of a digit is its value; any other white-space character gives 0 and any other character NaN; every defined value is at most 9 |
| TimeUtils.DigitSumOfDecimal | client/src/lib/timeUtils.ts:43-44 | the digit sum of a decimal rendering is defined, at most n, strictly below n from 10 on, positive for positive n, and congruent to n modulo 9 |
| TimeUtils.CalculateRootNumber | client/src/lib/timeUtils.ts:37-48 | defined iff the first digit sum is. The result is at most 9 and congruent modulo 9 to that sum. It is zero iff the sum is zero, and equals the sum when the sum is at most 9 |
| TimeUtils.RootNumberIdempotent | client/src/lib/timeUtils.ts:37-48 | the root number of the root number's rendering is itself |
| TimeUtils.RootNumberOfDigitsAndOneColon | client/src/lib/timeUtils.ts:37-48 | a time of decimal digits and exactly one ':' always has a root number |
| TimeUtils.RootNumberOf1234 | client/src/lib/timeUtils.ts:37-48 | "12:34" gives 1 (1+2+3+4 = 10, then 1+0) |
| TimeUtils.RootNumberOf1111 | client/src/lib/timeUtils.ts:37-48 | "11:11" gives 4 |
| TimeUtils.SecondColonIsNaN | client/src/lib/timeUtils.ts:39-40 | only the first ':' is removed, so any time with a second ':' (such as "12:34:56") sums to NaN and has no root number |
| TimeForm.IsValidTime | client/src/components/TimeForm.tsx:11 | an accepted time has four or five characters with the ':' third from the end |
| TimeForm.ValidTimeIsFormatted | client/src/components/TimeForm.tsx:11 | every accepted string is an hour below 24, written with one or two digits, then ':' and two-digit minutes below 60 |
| TimeForm.FormattedTimeIsValid | client/src/components/TimeForm.tsx:11 | conversely, every such rendering is accepted |
| TimeForm.HourAbove23Rejected | client/src/components/TimeForm.tsx:11 | hours of 24 and above are rejected, whether written with two digits or more |
| TimeForm.ValidTimeFieldLengths | client/src/components/TimeForm.tsx:11 | an accepted time splits into a one- or two-character hour and two-character minutes |
| TimeForm.ValidTimeIsClassifiable | client/src/components/TimeForm.tsx:11 | an accepted time has exactly one ':', a defined label, and a root number of at most 9 |
| TimeForm.Examples | client/src/components/TimeForm.tsx:11 | "9:05", "09:05", "23:59" and "0:00" are accepted; "24:00", "123:00", "12:5" and "12:60" are not |
| TimeForm.Submit | client/src/components/TimeForm.tsx:32-34 | the handler is reached iff the time is valid, and it forwards the time unchanged |
| TimeInterpretation.SelectTable | client/src/hooks/useTimeInterpretation.ts:24 | 'fr' selects the French table; any other language selects the English one |
| TimeInterpretation.Fallback | client/src/hooks/useTimeInterpretation.ts:37-69 | the generic interpretation is stamped with the label; its title is "The Energy of "/"L'Énergie de " + time, and its descriptions embed the lower-cased label |
| TimeInterpretation.Resolve | client/src/hooks/useTimeInterpretation.ts:24-70 | a table entry with only `type` overridden when the time is a key, otherwise the fallback; `type` is the label in both branches |
| TimeInterpretation.LowerCaseLabels | client/src/hooks/useTimeInterpretation.ts:42-43 | the lower-cased labels are "mirror hour", "reversed hour" and "regular hour" |
| TimeInterpretation.InterpretationHook.constructor | client/src/hooks/useTimeInterpretation.ts:8-9 | the hook starts with no interpretation and an empty time type |
| TimeInterpretation.InterpretationHook.RunEffect | client/src/hooks/useTimeInterpretation.ts:12-71 | a null or empty time clears both states. Otherwise `timeType` is `getTimeType(time)` and the interpretation is the resolved one. A time without ':' makes `getTimeType` throw: the effect reports the TypeError and changes nothing |
| Schema.NewUser | server/storage.ts:41 | the stored user keeps every inserted field and gets the given id |
| Schema.NewHistoryItem | server/storage.ts:49 | the stored item keeps every inserted field and gets the given id and `savedAt` |
| Schema.ParseInsertUser | shared/schema.ts:22-26 | the insert schema accepts iff username, password and email are all strings |
| Schema.ParseInsertUserAccepts | shared/schema.ts:22-26 | every insert record passes the schema unchanged |
| Schema.ParseInsertHistoryItem | shared/schema.ts:28-34 | accepts iff userId is a number and time and type are strings. The accepted record carries that userId, time and type, with thoughts and details as given |
| Schema.ParseInsertHistoryItemAccepts | shared/schema.ts:28-34 | every insert record passes the schema unchanged |
| Schema.ItemsOfUser | server/storage.ts:56 | the filter keeps a sub-multiset of the items |
| Schema.ItemsOfUserMembers | server/storage.ts:56 | an item is kept iff it belongs to the user |
| HistoryOrder.Insert | server/storage.ts:57 | inserting into the sorted list adds exactly that item |
| HistoryOrder.AppendKeepsIdsIncreasing | server/storage.ts:47-49 | appending an item whose id exceeds every stored id keeps ids increasing, so insertion order is id order |
| HistoryOrder.SortNewestFirst | server/storage.ts:57 | the sort is a permutation |
| HistoryOrder.InsertMembers | server/storage.ts:57 | inserting introduces no other item |
| HistoryOrder.InsertKeepsDescending | server/storage.ts:57 | insertion keeps `savedAt` non-increasing |
| HistoryOrder.InsertKeepsNewestFirst | server/storage.ts:57 | inserting an item older in id than every item keeps newest-first-then-oldest-id order |
| HistoryOrder.SortIsDescending | server/storage.ts:57 | the sorted list has non-increasing `savedAt` |
| HistoryOrder.SortIsStable | server/storage.ts:57 | on items in insertion (id) order, ties in `savedAt` keep insertion order |
| HistoryOrder.HeadPrecedes | server/storage.ts:57 | in a newest-first list the head precedes every other element |
| HistoryOrder.TailMultisets | server/storage.ts:57 | two permutations with the same head have permuted tails |
| HistoryOrder.NewestFirstTail | server/storage.ts:57 | the tail of a newest-first list is newest first |
| HistoryOrder.NewestFirstUnique | server/storage.ts:57 | there is exactly one newest-first arrangement of a multiset of items, so the stable sort's result is determined |
| HistoryOrder.ItemsOfUserKeepsOrder | server/storage.ts:55-56 | filtering keeps insertion order |
| Storage.FindUser | server/storage.ts:29-31 | `users.get(id)` finds a user with that id, and is undefined only when there is none |
| Storage.FirstWithUsername | server/storage.ts:33-37 | `find` returns the earliest-inserted user with that username, or nothing when no user has it |
| Storage.RemoveById | server/storage.ts:60-62 | deletion keeps a sub-multiset of the items, and a missing id is a no-op |
| Storage.RemoveByIdMembers | server/storage.ts:60-62 | exactly the items with another id remain |
| Storage.RemoveByIdKeepsOrder | server/storage.ts:60-62 | deletion keeps insertion order |
| Storage.MemStorage.constructor | server/storage.ts:22-27 | both maps start empty and both counters at 1 |
| Storage.MemStorage.GetHistoryByUserId | server/storage.ts:54-58 | exactly the user's items, newest `savedAt` first, ties in insertion order |
| Storage.MemStorage.CreateUser | server/storage.ts:39-44 | appends the input plus id `userId` and increments the counter, leaving history untouched. It keeps ids increasing and never reused, and `getUser` then finds the user. Duplicate usernames are not rejected |
| Storage.MemStorage.CreateHistoryItem | server/storage.ts:46-52 | appends the input plus a fresh id and `savedAt = now`, with no check that the user exists. The new id exceeds every earlier id and the item appears in its user's history |
| Storage.MemStorage.DeleteHistoryItem | server/storage.ts:60-62 | removes exactly the items with that id (none when it is missing) and touches neither the users nor the counters |
| ServerRoutes.Register | server/routes.ts:9-27 | schema failure gives 400 with the issues, and a taken username gives 400 "Username already taken"; neither creates anything. Otherwise 201 with the new user without its password. It keeps usernames unique |
| ServerRoutes.Login | server/routes.ts:29-47 | 400 "Username and password required" iff a field is falsy; otherwise 401 "Invalid credentials" or 200. A 200 carries, without its password, a stored user whose username and password both equal the request's |
| ServerRoutes.LoginAcceptsStoredCredentials | server/routes.ts:36-43 | with unique usernames, a login succeeds iff some stored user has both that username and that password |
| ServerRoutes.ReduceUserId | server/routes.ts:58-63 | a numeric id above 2147483647 becomes exactly `userId % 2147483647`, which lies in [0, 2147483647) and is congruent to the original. Ids at or below the limit and non-numbers pass unchanged |
| ServerRoutes.UserIdsCollide | server/routes.ts:59-63 | 2147483648 and 1 reduce to the same user id |
| ServerRoutes.KeepThoughts | server/routes.ts:85-88 | a truthy non-string throws (`trim` is not a function). A string is kept iff its trimmed form is non-empty, and is kept untrimmed |
| ServerRoutes.KeepDetails | server/routes.ts:90-101 | stored iff truthy: a prefix of the string (or of its JSON text), the whole text when it has at most 5000 characters and exactly its first 5000 otherwise |
| ServerRoutes.PreparePost | server/routes.ts:50-118 | in order: `ensureUserExists` throwing gives 500 and a falsy result gives 400 "Failed to validate user"; a throwing `trim` gives 500; a schema failure after both guards gives 400 with the issues. It accepts iff none apply, and the record carries the reduced userId's value, time, type, kept thoughts and kept details |
| ServerRoutes.PostHistory | server/routes.ts:50-129 | a rejection leaves the store unchanged. An acceptance stores exactly the prepared record and answers 201 with the saved item |
| ServerRoutes.LeadingDigitsIsLongest | server/routes.ts:133 | the digits read are a prefix of the input, and the character after them is not a digit |
| ServerRoutes.ParseInt | server/routes.ts:133 | `parseInt(s, 10)` is NaN iff no digit follows the leading white space and optional sign |
| ServerRoutes.LeadingDigitsOf | server/routes.ts:133 | the digit prefix stops at the first non-digit |
| ServerRoutes.ParseIntOfIntToString | server/routes.ts:133 | `parseInt` reads back any rendered integer, ignoring a non-digit tail |
| ServerRoutes.ParseIntRejectsWords | server/routes.ts:133-135 | "abc" is NaN |
| ServerRoutes.ParseIntRejectsSign | server/routes.ts:133-135 | a lone "-" is NaN |
| ServerRoutes.ParseIntIgnoresTail | server/routes.ts:133 | "12abc" reads as 12 |
| ServerRoutes.ParseIntOfPadded | server/routes.ts:133 | leading white space, an optional '+' or '-', then digits with any leading zeros, before a non-digit: the value of the digits, negated only after '-' |
| ServerRoutes.ParseIntSkipsSpace | server/routes.ts:133 | " 7" reads as 7 |
| ServerRoutes.ParseIntSkipsPlus | server/routes.ts:133 | "+7" reads as 7 |
| ServerRoutes.ParseIntSkipsZeros | server/routes.ts:133 | "007" reads as 7 |
| ServerRoutes.GetHistory | server/routes.ts:131-143 | 400 "Invalid user ID" iff the parameter is NaN; otherwise 200 with exactly that user's items newest first |
| ServerRoutes.DeleteHistory | server/routes.ts:145-157 | 400 "Invalid ID" with nothing changed iff NaN; otherwise the item is removed and the answer is 204 whether or not it existed |
| FlaskApp.FindItem | app/routes/history.py:94 | `query.get(id)` finds a row with that id, and None only when there is none |
| FlaskApp.NormalizeDetails | app/routes/history.py:32-38 | None or null stays None, a list or dict becomes `json.dumps`, a string is kept, and a boolean becomes "True" or "False". A number becomes `str(n)`, its canonical decimal rendering, which reads back as the number. Nothing is truncated |
| FlaskApp.IntToStringReadsBack | app/routes/history.py:37 | `str` of an integer reads back as the integer |
| FlaskApp.DetailsDifferBetweenBackends | app/routes/history.py:32-38 | Flask stores `0` as "0", `false` as "False" and a long string whole, where Express drops the first two as falsy and truncates the third (server/routes.ts:91-97) |
| FlaskApp.ToItemData | app/routes/history.py:79-87 | each column is serialised under its own field, with `saved_at` through `isoformat` |
| FlaskApp.LoginResponse | app/routes/auth.py:39-60 | 400 "Missing username or password" iff the body or a field is missing or empty; otherwise 401 "Invalid username or password" or 200. A 200 "Login successful" carries, without its password, a stored user with that name whose hash checks against the password |
| FlaskApp.LoginAcceptsStoredCredentials | app/routes/auth.py:48-51 | with unique accounts and both fields given, a login succeeds iff some stored user has that username and a hash that checks against the password |
| FlaskApp.LoginAfterRegister | app/routes/auth.py:18-50 | a newly registered user logs in with the password whose hash was stored |
| FlaskApp.RemoveKeepsReferences | app/models/history_item.py:9 | deleting rows keeps every row's `user_id` pointing at an existing user |
| FlaskApp.AppendUserKeepsReferences | app/models/history_item.py:9 | appending a user keeps every history row's `user_id` pointing at a user |
| FlaskApp.AppendUserKeepsKeys | app/models/user.py:8-11 | a user with a fresh username and email and the largest id keeps ids ascending and accounts unique |
| FlaskApp.RegisterKeepsConsistent | app/models/user.py:8-11 | adding a user with a fresh username and email under the next auto-increment id keeps ids increasing and below the counter, usernames and emails unique, and every `user_id` pointing at a user |
| FlaskApp.CreateKeepsConsistent | app/models/history_item.py:8-9 | adding a row for an existing user under the next auto-increment id keeps the tables consistent |
| FlaskApp.DeleteKeepsConsistent | app/models/history_item.py:8-9 | deleting a row by id keeps the tables consistent |
| FlaskApp.Database.constructor | app/models/user.py:8 | both tables start empty and the auto-increment counters at 1 |
| FlaskApp.Database.Register | app/routes/auth.py:8-36 | 400 "Missing username, email, or password", or 400 "User with this username or email already exists", or 500 "Failed to register user" when the commit fails; none of them change anything. Otherwise it appends the user with the hashed password and answers 201 without it. It keeps usernames and emails unique |
| FlaskApp.Database.CreateHistoryItem | app/routes/history.py:10-66 | 400 when there is no JSON body, 400 "Missing required fields: userId, time, type", 404 "User with ID N not found", 500 when the commit fails; none of them change anything. Otherwise it appends the row with normalised details and `saved_at = now` and answers 201 with it. It keeps every `user_id` referring to a user |
| FlaskApp.Database.UserRows | app/routes/history.py:75 | exactly that user's rows, `saved_at` descending |
| FlaskApp.Database.UserRowsAreTheUsersRows | app/routes/history.py:75 | each of the user's rows is listed exactly as often as it is stored: the same multiset as the filter |
| FlaskApp.Database.GetHistory | app/routes/history.py:69-89 | 404 iff the user is unknown; otherwise 200 with one serialised entry per row of `UserRows`, in order, possibly none; with `UserRowsAreTheUsersRows` each of the user's rows appears exactly once |
| FlaskApp.Database.DeleteHistoryItem | app/routes/history.py:92-105 | 404 "History item with ID N not found" or 500 on a failed commit, neither changing anything; otherwise exactly that row is removed and the answer is 204 |
| Migration.LazyGroupSound | migrate_data.py:19 | a group found for the lazy `FROM stdin;(.*?)\.` lies between the first opening pattern from the start point and the first closing pattern after it, and contains no closing pattern |
| Migration.LazyGroupAt | migrate_data.py:19 | conversely, wherever that first opening and first closing pattern sit, their group is found |
| Migration.LeftmostGroupSound | migrate_data.py:19-20 | `re.search` finds nothing without a head. A group it finds lies at the leftmost match: the first head, then the lazy part from the end of that head |
| Migration.FirstHead | migrate_data.py:19-20 | with the first head at p, the search continues at p plus the head's length |
| Migration.LeftmostGroupAt | migrate_data.py:19-20 | conversely, wherever the leftmost match sits, its group is found |
| Migration.FindCopyBlock | migrate_data.py:19-22 | no block without a `COPY public.<table> ` header. A found block lies at the leftmost match: after the first " FROM stdin;" that follows the first header, up to the first `\.` after it. It contains no `\.` |
| Migration.FindsBlockAt | migrate_data.py:19-22 | conversely, wherever the leftmost match sits, the block found is exactly its group |
| Migration.FindsBlockOf | migrate_data.py:11-13 | a dump laid out as header, columns, " FROM stdin;", data and `\.`, with no earlier header, no " FROM stdin;" in the columns and no `\.` in the data, yields exactly that data |
| Migration.SliceOfSlice | migrate_data.py:26 | a slice of a slice is a slice of the original |
| Migration.BlankIsEmptyStrip | migrate_data.py:31 | a line is skipped iff its `strip()` is empty |
| Migration.ParseCopyData | migrate_data.py:8-33 | the loop returns the rows of the block's lines |
| Migration.NoHeaderNoRows | migrate_data.py:22-24 | no COPY block gives no rows |
| Migration.RowsAreLines | migrate_data.py:27-32 | every row is the tab-split of a non-blank line, and joins back to it |
| Migration.RowsOfNonBlankLines | migrate_data.py:29-32 | when no line is blank there is one row per line, in order |
| Migration.RowsOfAppend | migrate_data.py:29-32 | the rows of two runs of lines are the rows of the first run followed by those of the second |
| Migration.BlankLinesDropped | migrate_data.py:31 | white-space-only lines give no rows |
| Migration.PyInt | migrate_data.py:48 | `int()` accepts exactly optional white space around one optional sign and a non-empty run of ASCII digits, and gives their signed decimal value |
| Migration.PyIntOfIntToString | migrate_data.py:48 | `int()` reads back any rendered integer |
| Migration.PyIntOfPadded | migrate_data.py:48 | white space around a run of digits is ignored: the value is that of the digits |
| Migration.PyIntOfSpacedTwelve | migrate_data.py:48 | `int(" 12 ")` is 12 |
| Migration.UserRow | migrate_data.py:44-57 | a row converts iff it has 4 fields and the first is an integer. The id is that integer, and username, password and email are kept verbatim |
| Migration.UserRowRoundTrip | migrate_data.py:46-52 | a dumped user converts back to itself, original id included |
| Migration.FormatOf | migrate_data.py:88-91 | the fractional-seconds format is chosen iff the stamp contains '.' |
| Migration.Nullable | migrate_data.py:98-100 | only the exact field `\N` is NULL; any other field is kept verbatim |
| Migration.HistoryRow | migrate_data.py:79-106 | a row converts iff it has 7 fields, both ids are integers and `saved_at` parses. The ids are those integers, time and type are kept verbatim, thoughts and details are the fields read with `\N` as NULL, and `saved_at` is the parsed stamp |
| Migration.HistoryRowRoundTrip | migrate_data.py:82-101 | a dumped history item converts back to itself, original ids included |
| Migration.ConvertedComeFromRows | migrate_data.py:44-110 | every migrated record comes from a row that converts to it, and no more records than rows |
| Migration.ConvertedAppend | migrate_data.py:44-110 | migrating two runs of rows migrates the first run, then the second |
| Migration.ConvertibleRowsAllKept | migrate_data.py:44-110 | when every row converts, every row is migrated, in order |
| Migration.ConvertAll | migrate_data.py:44-110 | the loop adds the converted rows and skips the rest |
| Migration.MigrateUsers | migrate_data.py:35-61 | the users added are the convertible rows of the `users` block |
| Migration.MigrateHistoryItems | migrate_data.py:70-110 | the items added are the convertible rows of the `history_items` block |
| UseAuth.FindAccount | client/src/hooks/useAuth.ts:54-55 | the first account whose username and password both equal the inputs; none iff no account matches both |
| UseAuth.FindAccountByUsername | client/src/hooks/useAuth.ts:55 | with distinct usernames, a login finds that user's account iff the password matches |
| UseAuth.NewAccountLogsIn | client/src/hooks/useAuth.ts:55-92 | an appended account with a new username is found by its credentials |
| UseAuth.AuthProvider.constructor | client/src/hooks/useAuth.ts:32-33 | the provider mounts logged out over the stored data |
| UseAuth.AuthProvider.Init | client/src/hooks/useAuth.ts:36-48 | a non-empty stored entry that parses becomes the session. One that does not parse is removed. Absent or empty, nothing changes |
| UseAuth.AuthProvider.Login | client/src/hooks/useAuth.ts:51-65 | on a match the session is that account without its password, logged in and persisted. Otherwise it fails with "Invalid username or password" and nothing changes |
| UseAuth.AuthProvider.Register | client/src/hooks/useAuth.ts:68-100 | a taken username is reported before a taken email, and a rejection changes nothing. Otherwise exactly one account is appended and logged in without its password. It keeps usernames and emails distinct |
| UseAuth.AuthProvider.Logout | client/src/hooks/useAuth.ts:103-107 | clears the session and the stored entry and keeps the account list |
| UseAuth.RegisterThenLogIn | client/src/hooks/useAuth.ts:68-107 | after a successful registration and a logout, logging in with the same credentials restores the same session |
| Header.HeadsOfSplit | client/src/components/Header.tsx:43 | the concatenated first characters of the space-split are exactly the characters that begin a word |
| Header.OneWordInitial | client/src/components/Header.tsx:43 | a space-free name has its first character as its only initial |
| Header.SpacesHaveNoInitials | client/src/components/Header.tsx:43 | a name of spaces has no initials |
| Header.GetInitials | client/src/components/Header.tsx:41-44 | "U" for an empty name. Otherwise the first two of the upper-cased word initials, so at most two characters |
| Header.BlankNameHasNoInitials | client/src/components/Header.tsx:42-43 | a non-empty name of spaces yields "", not "U" |
| Header.FirstInitial | client/src/components/Header.tsx:43 | a name starting with a non-space starts its initials with that character upper-cased |
| Header.TwoWordInitials | client/src/components/Header.tsx:43 | two space-free words joined by one space give their two first letters, upper-cased |
| Header.TwoWordExample | client/src/components/Header.tsx:43 | "john doe" gives "JD" |
| Header.OneWordExample | client/src/components/Header.tsx:43 | "ada" gives "A" |

## Left out

- `ensureUserExists` (server/routes.ts:72) is defined neither by the `IStorage` interface nor by `MemStorage` (server/storage.ts). So it is the `ensure: Option<bool>` parameter of `ServerRoutes.PreparePost`/`PostHistory`. `None` stands for the call throwing, which the handler turns into 500; with `MemStorage` as written this is what every POST does. No placeholder user or duplicate suppression exists, and none is modelled.
- `ServerRoutes.Register`: the 500 "Failed to register user" and the login 500 paths cannot be reached with the in-memory store, which never throws, so they are not modelled.
- Storage.MemStorage.CreateUser does not check that the email is unique, though `shared/schema.ts:9` declares the column unique. The model follows the in-memory store; database constraint errors are not modelled.
- The zod schemas are modelled only as the type checks of `Schema.ParseInsertUser` and `Schema.ParseInsertHistoryItem`. The text of zod's error messages is the opaque `ValidationIssues` body.
- JSON numbers are integers. Floating point, `NaN` from non-numeric input and `Number.MAX_SAFE_INTEGER` are not modelled, except that `parseInt`'s NaN is `None`.
- ServerRoutes.KeepDetails: `substring` counts UTF-16 code units, while the model counts characters. A `JSON.stringify` that throws (for example on a cyclic value) cannot arise from a parsed JSON body, so it is not modelled.
- Text.Reverse: `split('')` splits into UTF-16 code units, so a character outside the Basic Multilingual Plane is reversed as two halves; the model reverses characters.
- Header.GetInitials: `n[0]` and `substring(0, 2)` take UTF-16 code units, so a word starting with a character outside the Basic Multilingual Plane contributes half of it; the model takes characters.
- Text.ToUpper, Text.ToLower: only ASCII letters change case; Unicode case mapping is not modelled.
- Migration.PyInt: Python's `int()` also accepts underscores between digits and non-ASCII digits; the model accepts only ASCII digits after stripping and an optional sign.
- Migration.FindCopyBlock models the intended regular-expression match as leftmost searches. The inline `(?s)` flag at migrate_data.py:19 is not at the start of the pattern, which Python 3.11 and later reject with an error; that error is not modelled.
- Migration.MigrateUsers, Migration.MigrateHistoryItems: the SQLAlchemy session (`add`, `commit`, `rollback`) and its errors are not modelled. The methods return the records the loop would add.
- FlaskApp.Database: ids come from counters that only increase. SQLite's reuse of the largest deleted rowid is not modelled. `String(80)`/`String(500)` lengths are declared (`Schema.FitsUserColumns`, `Schema.FitsHistoryColumns`) but not enforced, as SQLite does not enforce them.
- FlaskApp request bodies are typed records: a field is present or absent, and JSON `null` counts as absent. A truthy body that is not an object (which makes `.get` raise) and a `userId` of another type are outside that domain.
- FlaskApp.Database.UserRows: `ORDER BY saved_at DESC` leaves ties unordered. The model breaks them in insertion order, and the contract states only the descending order and the contents.
- FlaskApp: password hashing is the parameter `hashed` (`generate_password_hash`) and the function `check` (`check_password_hash`). Only the fact that a hash checks against its own password is assumed (`FlaskApp.LoginAfterRegister`).
- UseAuth: a `mirrorTime_users` entry that fails to parse makes `login`/`register` throw; the model takes the list as parsed. React state updates are applied at once rather than on the next render. `Date.now()` ids may collide, and nothing checks them.
- UseAuth.StoredUser: `JSON.parse` of the `mirrorTime_user` entry (client/src/hooks/useAuth.ts:40-41) accepts any JSON value. The model holds only a user, `null`, empty text or unparsable text; any other JSON value, which the code would take as the session user, is not modelled.
- UseAuth.AuthProvider.Init: stored JSON `null` logs in with no user (`isLoggedIn` true, `user` null). The model states this and does not claim the session invariant for it.
- The React components' markup, the localStorage history list of the client, ShareInterpretation.tsx, the i18n set-up, the OpenAI analysis route and the Express/Flask wiring are outside the core and not modelled.

/**
 * The SQL-dump migration (migrate_data.py): find the data of a PostgreSQL
 * `COPY public.<table> ... FROM stdin;` block in text format, cut it into
 * tab-separated rows, and turn each row into a user or a history item,
 * skipping the rows that do not convert. PostgreSQL's text format ends the
 * data with a line `\.` and writes NULL as `\N`; the script unescapes
 * nothing else. The database session the rows are added to is left out:
 * the migrate methods return the rows they would add, in order.
 */
module Migration {
  import opened Wrappers
  import opened Text
  import opened Schema

  const FROM_STDIN := " FROM stdin;"
  /** The end-of-data marker: a backslash and a period. */
  const END_OF_DATA := "\\."
  /** The text format's NULL: a backslash and an N. */
  const NULL_MARKER := "\\N"

  function CopyHeader(table: string): string {
    "COPY public." + table + " "
  }
  /**
   * Where a lazy `open(.*?)close` matches when tried from `from`: the first
   * `open` at `q` and the first `close` after it at `e`. The group is what
   * lies between them.
   */
  predicate LazyAt(s: string, open: string, close: string, from: nat, q: nat, e: nat) {
    && from <= q && OccursAt(s, open, q)
    && (forall k :: from <= k < q ==> !OccursAt(s, open, k))
    && q + |open| <= e && OccursAt(s, close, e)
    && (forall k :: q + |open| <= k < e ==> !OccursAt(s, close, k))
  }

  /**
   * Where the leftmost match of `head.*?open(.*?)close` sits: the first
   * `head` at `p`, then the lazy part tried from the end of that head.
   */
  predicate MatchAt(s: string, head: string, open: string, close: string, p: nat, q: nat, e: nat) {
    && OccursAt(s, head, p)
    && (forall k :: 0 <= k < p ==> !OccursAt(s, head, k))
    && LazyAt(s, open, close, p + |head|, q, e)
  }

  /** The group of the lazy `open(.*?)close`, tried from `from`. */
  function LazyGroup(s: string, open: string, close: string, from: nat): Option<string> {
    match IndexOf(s, open, from)
    case None => None
    case Some(q) =>
      var start := q + |open|;
      match IndexOf(s, close, start)
      case None => None
      case Some(e) => Some(s[start..e])
  }

  /** A group LazyGroup finds lies where the lazy part matches, with no `close` inside it. */
  lemma LazyGroupSound(s: string, open: string, close: string, from: nat)
    ensures var r := LazyGroup(s, open, close, from);
      r.Some? ==> exists q: nat, e: nat :: LazyAt(s, open, close, from, q, e) && r.value == s[q + |open|..e]
    ensures var r := LazyGroup(s, open, close, from);
      r.Some? ==> forall k :: 0 <= k < |r.value| ==> !OccursAt(r.value, close, k)
  {
    match IndexOf(s, open, from)
    case None =>
    case Some(q) =>
      var start := q + |open|;
      match IndexOf(s, close, start)
      case None =>
      case Some(e) =>
        NoneInSlice(s, close, start, e);
        assert LazyAt(s, open, close, from, q, e);
  }

  /** Wherever the lazy part matches, LazyGroup finds exactly its group. */
  lemma LazyGroupAt(s: string, open: string, close: string, from: nat, q: nat, e: nat)
    requires LazyAt(s, open, close, from, q, e)
    ensures LazyGroup(s, open, close, from) == Some(s[q + |open|..e])
  {
    IndexOfFinds(s, open, from, q);
    IndexOfFinds(s, close, q + |open|, e);
  }

  /**
   * The group `re.search` captures for `head.*?open(.*?)close` with DOTALL:
   * the first `head`, the first `open` after it, and everything up to the
   * first `close` after that.
   */
  function LeftmostGroup(s: string, head: string, open: string, close: string): Option<string> {
    match IndexOf(s, head, 0)
    case None => None
    case Some(p) => LazyGroup(s, open, close, p + |head|)
  }

  /**
   * LeftmostGroup finds nothing without a head, and a group it finds lies
   * where the leftmost match sits, with no `close` inside it.
   */
  lemma LeftmostGroupSound(s: string, head: string, open: string, close: string)
    ensures IndexOf(s, head, 0).None? ==> LeftmostGroup(s, head, open, close).None?
    ensures var r := LeftmostGroup(s, head, open, close);
      r.Some? ==> exists p: nat, q: nat, e: nat :: MatchAt(s, head, open, close, p, q, e) && r.value == s[q + |open|..e]
    ensures var r := LeftmostGroup(s, head, open, close);
      r.Some? ==> forall k :: 0 <= k < |r.value| ==> !OccursAt(r.value, close, k)
  {
    match IndexOf(s, head, 0)
    case None =>
    case Some(p) => MatchOfLazy(s, head, open, close, p);
  }

  lemma MatchOfLazy(s: string, head: string, open: string, close: string, p: nat)
    requires OccursAt(s, head, p)
    requires forall k :: 0 <= k < p ==> !OccursAt(s, head, k)
    ensures var r := LazyGroup(s, open, close, p + |head|);
      r.Some? ==> exists p: nat, q: nat, e: nat :: MatchAt(s, head, open, close, p, q, e) && r.value == s[q + |open|..e]
    ensures var r := LazyGroup(s, open, close, p + |head|);
      r.Some? ==> forall k :: 0 <= k < |r.value| ==> !OccursAt(r.value, close, k)
  {
    var r := LazyGroup(s, open, close, p + |head|);
    LazyGroupSound(s, open, close, p + |head|);
    if r.Some? {
      var q: nat, e: nat :| LazyAt(s, open, close, p + |head|, q, e) && r.value == s[q + |open|..e];
      assert MatchAt(s, head, open, close, p, q, e);
    }
  }

  /** With the first head at `p`, the search goes on right after it. */
  lemma FirstHead(s: string, head: string, open: string, close: string, p: nat)
    requires OccursAt(s, head, p)
    requires forall k :: 0 <= k < p ==> !OccursAt(s, head, k)
    ensures LeftmostGroup(s, head, open, close) == LazyGroup(s, open, close, p + |head|)
  {
    IndexOfFinds(s, head, 0, p);
  }

  /** Conversely, wherever the leftmost match sits, LeftmostGroup finds exactly its group. */
  lemma LeftmostGroupAt(s: string, head: string, open: string, close: string, p: nat, q: nat, e: nat)
    requires MatchAt(s, head, open, close, p, q, e)
    ensures LeftmostGroup(s, head, open, close) == Some(s[q + |open|..e])
  {
    FirstHead(s, head, open, close, p);
    LazyGroupAt(s, open, close, p + |head|, q, e);
  }

  /**
   * The group the script's pattern captures for a table: the data between
   * the first " FROM stdin;" after the first header and the first end
   * marker after that.
   */
  function FindCopyBlock(sql: string, table: string): (r: Option<string>)
    ensures IndexOf(sql, CopyHeader(table), 0).None? ==> r.None?
    ensures r.Some? ==>
      exists p: nat, q: nat, e: nat :: MatchAt(sql, CopyHeader(table), FROM_STDIN, END_OF_DATA, p, q, e) && r.value == sql[q + |FROM_STDIN|..e]
    ensures r.Some? ==> forall k :: 0 <= k < |r.value| ==> !OccursAt(r.value, END_OF_DATA, k)
  {
    LeftmostGroupSound(sql, CopyHeader(table), FROM_STDIN, END_OF_DATA);
    LeftmostGroup(sql, CopyHeader(table), FROM_STDIN, END_OF_DATA)
  }

  /** Conversely, wherever the leftmost match sits, FindCopyBlock finds exactly its group. */
  lemma FindsBlockAt(sql: string, table: string, p: nat, q: nat, e: nat)
    requires MatchAt(sql, CopyHeader(table), FROM_STDIN, END_OF_DATA, p, q, e)
    ensures FindCopyBlock(sql, table) == Some(sql[q + |FROM_STDIN|..e])
  {
    LeftmostGroupAt(sql, CopyHeader(table), FROM_STDIN, END_OF_DATA, p, q, e);
  }

  /**
   * A dump laid out as `pre`, the table's header, the column list, " FROM
   * stdin;", the data, the end marker and the rest yields that data,
   * provided no header for the table starts in `pre`, no " FROM stdin;"
   * starts in the column list and no end marker starts in the data.
   */
  lemma FindsBlockOf(sql: string, pre: string, table: string, cols: string, data: string, post: string)
    requires sql == pre + CopyHeader(table) + cols + FROM_STDIN + data + END_OF_DATA + post
    requires forall k :: 0 <= k < |pre| ==> !OccursAt(sql, CopyHeader(table), k)
    requires forall k :: |pre| + |CopyHeader(table)| <= k < |pre| + |CopyHeader(table)| + |cols| ==>
      !OccursAt(sql, FROM_STDIN, k)
    requires forall k :: |sql| - |post| - |END_OF_DATA| - |data| <= k < |sql| - |post| - |END_OF_DATA| ==>
      !OccursAt(sql, END_OF_DATA, k)
    ensures FindCopyBlock(sql, table) == Some(data)
  {
    var h := CopyHeader(table);
    var p := |pre|;
    var q := p + |h| + |cols|;
    var e := q + |FROM_STDIN| + |data|;
    assert sql[p..p + |h|] == h;
    assert sql[q..q + |FROM_STDIN|] == FROM_STDIN;
    assert sql[e..e + |END_OF_DATA|] == END_OF_DATA;
    assert sql[q + |FROM_STDIN|..e] == data;
    FindsBlockAt(sql, table, p, q, e);
  }

  /** A slice with no occurrence of `pat` starting inside it has none within it. */
  lemma NoneInSlice(s: string, pat: string, i: nat, j: nat)
    requires i <= j <= |s|
    requires forall k :: i <= k < j ==> !OccursAt(s, pat, k)
    ensures forall k :: 0 <= k < j - i ==> !OccursAt(s[i..j], pat, k)
  {
    forall k | 0 <= k < j - i
      ensures !OccursAt(s[i..j], pat, k)
    {
      assert !OccursAt(s, pat, i + k);
      if k + |pat| <= j - i {
        SliceOfSlice(s, i, j, k, k + |pat|);
      }
    }
  }

  lemma SliceOfSlice(s: string, i: nat, j: nat, k: nat, l: nat)
    requires i <= j <= |s| && k <= l <= j - i
    ensures s[i..j][k..l] == s[i + k..i + l]
  {
    assert |s[i..j][k..l]| == l - k == |s[i + k..i + l]|;
    forall t | 0 <= t < l - k ensures s[i..j][k..l][t] == s[i + k..i + l][t] {
      assert s[i..j][k..l][t] == s[i..j][k + t] == s[i + k + t];
    }
  }

  /** A line made of white space only, which is when `line.strip()` is empty. */
  predicate Blank(line: string) {
    forall i :: 0 <= i < |line| ==> IsPySpace(line[i])
  }

  /** `Blank` is the condition of the script: the stripped line is empty. */
  lemma BlankIsEmptyStrip(line: string)
    ensures Blank(line) <==> Trim(line, IsPySpace) == ""
  {
  }

  /** The tab-split of each non-blank line, in order. */
  function RowsOf(lines: seq<string>): seq<seq<string>> {
    if lines == [] then []
    else
      var last := lines[|lines| - 1];
      RowsOf(lines[..|lines| - 1]) + (if Blank(last) then [] else [Split(last, '\t')])
  }

  /** The rows of two runs of lines are the rows of each run, in order. */
  lemma {:induction false} RowsOfAppend(a: seq<string>, b: seq<string>)
    ensures RowsOf(a + b) == RowsOf(a) + RowsOf(b)
    decreases |b|
  {
    if b == [] {
      assert a + b == a;
    } else {
      var init := b[..|b| - 1];
      assert (a + b)[..|a + b| - 1] == a + init;
      assert (a + b)[|a + b| - 1] == b[|b| - 1];
      RowsOfAppend(a, init);
    }
  }

  /** What `parse_copy_data` returns for a dump and a table. */
  function CopyRows(sql: string, table: string): seq<seq<string>> {
    match FindCopyBlock(sql, table)
    case None => []
    case Some(data) => RowsOf(Split(Trim(data, IsPySpace), '\n'))
  }

  /** RowsOf a longer prefix adds the row of the next line, if that line is not blank. */
  lemma RowsOfPrefix(lines: seq<string>, i: nat)
    requires i < |lines|
    ensures RowsOf(lines[..i + 1]) == RowsOf(lines[..i]) + (if Blank(lines[i]) then [] else [Split(lines[i], '\t')])
  {
    assert lines[..i + 1][..i] == lines[..i];
  }

  /** parse_copy_data. */
  method ParseCopyData(sql: string, table: string) returns (parsedData: seq<seq<string>>)
    ensures parsedData == CopyRows(sql, table)
  {
    var block := FindCopyBlock(sql, table);
    if block.None? {
      return [];
    }
    var lines := Split(Trim(block.value, IsPySpace), '\n');
    parsedData := [];
    var i := 0;
    while i < |lines|
      invariant 0 <= i <= |lines|
      invariant parsedData == RowsOf(lines[..i])
    {
      RowsOfPrefix(lines, i);
      if !Blank(lines[i]) {
        parsedData := parsedData + [Split(lines[i], '\t')];
      }
      i := i + 1;
    }
    assert lines[..|lines|] == lines;
  }

  /** Without a COPY header for the table there is nothing to migrate. */
  lemma NoHeaderNoRows(sql: string, table: string)
    requires IndexOf(sql, CopyHeader(table), 0).None?
    ensures CopyRows(sql, table) == []
  {
  }

  /** Every row is the tab-split of a non-blank line, and joining it back with tabs gives that line. */
  lemma {:induction false} RowsAreLines(lines: seq<string>)
    ensures forall i :: 0 <= i < |RowsOf(lines)| ==>
      exists j :: && 0 <= j < |lines| && !Blank(lines[j])
                  && RowsOf(lines)[i] == Split(lines[j], '\t')
                  && Join(RowsOf(lines)[i], '\t') == lines[j]
  {
    if lines != [] {
      var init := lines[..|lines| - 1];
      var last := lines[|lines| - 1];
      RowsAreLines(init);
      JoinSplit(last, '\t');
      var rows := RowsOf(lines);
      forall i | 0 <= i < |rows|
        ensures exists j :: && 0 <= j < |lines| && !Blank(lines[j])
                            && rows[i] == Split(lines[j], '\t')
                            && Join(rows[i], '\t') == lines[j]
      {
        if i < |RowsOf(init)| {
          assert rows[i] == RowsOf(init)[i];
          var j :| && 0 <= j < |init| && !Blank(init[j])
                   && RowsOf(init)[i] == Split(init[j], '\t')
                   && Join(RowsOf(init)[i], '\t') == init[j];
          assert lines[j] == init[j];
        } else {
          assert !Blank(last) && rows == RowsOf(init) + [Split(last, '\t')];
          assert rows[i] == Split(lines[|lines| - 1], '\t');
        }
      }
      assert rows == RowsOf(lines);
    } else {
      assert RowsOf(lines) == [];
    }
  }

  /** No line is dropped unless it is blank: without blank lines there is one row per line. */
  lemma {:induction false} RowsOfNonBlankLines(lines: seq<string>)
    requires forall j :: 0 <= j < |lines| ==> !Blank(lines[j])
    ensures |RowsOf(lines)| == |lines|
    ensures forall i :: 0 <= i < |lines| ==> RowsOf(lines)[i] == Split(lines[i], '\t')
  {
    if lines != [] {
      RowsOfNonBlankLines(lines[..|lines| - 1]);
    }
  }

  /** Blank lines contribute nothing. */
  lemma {:induction false} BlankLinesDropped(lines: seq<string>)
    requires forall j :: 0 <= j < |lines| ==> Blank(lines[j])
    ensures RowsOf(lines) == []
  {
    if lines != [] {
      BlankLinesDropped(lines[..|lines| - 1]);
    }
  }

  /**
   * Python's `int()` on a text field: surrounding white space and one sign
   * are allowed around ASCII digits; anything else raises ValueError (None).
   */
  function PyInt(s: string): (r: Option<int>)
    ensures var t := Trim(s, IsPySpace);
      var signed := t != [] && (t[0] == '+' || t[0] == '-');
      var d := if signed then t[1..] else t;
      && (r.Some? <==> d != [] && AllDigits(d))
      && (r.Some? ==> r.value == if signed && t[0] == '-' then -(DecimalValue(d) as int) else DecimalValue(d) as int)
  {
    SignedDecimal(Trim(s, IsPySpace))
  }

  /** One optional sign, then ASCII digits only. */
  function SignedDecimal(t: string): Option<int> {
    if t != [] && (t[0] == '+' || t[0] == '-') then
      match Decimal(t[1..])
      case None => None
      case Some(v) => Some(if t[0] == '-' then -v else v)
    else Decimal(t)
  }

  function Decimal(u: string): Option<int> {
    if u == [] || !AllDigits(u) then None else Some(DecimalValue(u))
  }

  /** `int()` reads back a decimal rendering: ids in a dump keep their values. */
  lemma PyIntOfIntToString(i: int)
    ensures PyInt(IntToString(i)) == Some(i)
  {
    var m: nat := if i < 0 then -i else i;
    DecimalValueOfNatToString(m);
    PyIntOfDigits(NatToString(m));
  }

  /** A digit string, alone or after '-', is its own strip and reads back as its value. */
  lemma PyIntOfDigits(d: string)
    requires d != [] && AllDigits(d)
    ensures PyInt(d) == Some(DecimalValue(d) as int)
    ensures PyInt("-" + d) == Some(-(DecimalValue(d) as int))
  {
    var neg := "-" + d;
    assert IsDigit(d[0]) && IsDigit(d[|d| - 1]);
    assert neg[|neg| - 1] == d[|d| - 1];
    TrimUnchanged(d, IsPySpace);
    TrimUnchanged(neg, IsPySpace);
    SignedDigits(d);
  }

  /** White space around the digits is stripped first: `int(" 12 ")` is 12. */
  lemma PyIntOfPadded(pre: string, d: string, post: string)
    requires forall i :: 0 <= i < |pre| ==> IsPySpace(pre[i])
    requires forall i :: 0 <= i < |post| ==> IsPySpace(post[i])
    requires d != [] && AllDigits(d)
    ensures PyInt(pre + d + post) == Some(DecimalValue(d) as int)
  {
    assert IsDigit(d[0]) && IsDigit(d[|d| - 1]);
    TrimPadded(pre, d, post, IsPySpace);
    SignedDigits(d);
  }

  lemma PyIntOfSpacedTwelve()
    ensures PyInt(" 12 ") == Some(12)
  {
    assert " 12 " == " " + "12" + " ";
    assert DecimalValue("12") == 12 by {
      assert "12"[..1] == "1";
    }
    PyIntOfPadded(" ", "12", " ");
  }

  lemma SignedDigits(d: string)
    requires d != [] && AllDigits(d)
    ensures SignedDecimal(d) == Some(DecimalValue(d) as int)
    ensures SignedDecimal("-" + d) == Some(-(DecimalValue(d) as int))
  {
    assert IsDigit(d[0]);
    assert ("-" + d)[1..] == d;
  }

  /** A user row keeps its original id: `user_id, username, password, email = row`, then `int(user_id)`. */
  function UserRow(row: seq<string>): (r: Option<User>)
    ensures r.Some? <==> |row| == 4 && PyInt(row[0]).Some?
    ensures r.Some? ==> r.value.id == PyInt(row[0]).value
    ensures r.Some? ==> r.value.username == row[1] && r.value.password == row[2] && r.value.email == row[3]
  {
    if |row| != 4 then None
    else match PyInt(row[0])
      case None => None
      case Some(id) => Some(User(id, row[1], row[2], row[3]))
  }

  /** A user written out as a dump row converts back to that user. */
  lemma UserRowRoundTrip(u: User)
    ensures UserRow([IntToString(u.id), u.username, u.password, u.email]) == Some(u)
  {
    PyIntOfIntToString(u.id);
  }

  /** The two `strptime` formats. */
  datatype DateFormat = WithFraction | WholeSeconds

  /** `'%Y-%m-%d %H:%M:%S.%f'` when the text has a '.', else `'%Y-%m-%d %H:%M:%S'`. */
  function FormatOf(stamp: string): (f: DateFormat)
    ensures f == WithFraction <==> '.' in stamp
  {
    if '.' in stamp then WithFraction else WholeSeconds
  }

  /** A nullable text field: exactly `\N` is NULL, everything else is kept as written. */
  function Nullable(field: string): (r: Option<string>)
    ensures r.None? <==> field == NULL_MARKER
    ensures r.Some? ==> r.value == field
  {
    if field == NULL_MARKER then None else Some(field)
  }

  /**
   * A history row: seven fields in dump column order (id, user_id, time,
   * type, thoughts, saved_at, details). `strptime` returns the parsed
   * instant or None for ValueError.
   */
  function HistoryRow(row: seq<string>, strptime: (string, DateFormat) -> Option<int>): (r: Option<HistoryItem>)
    ensures r.Some? <==>
      && |row| == 7
      && strptime(row[5], FormatOf(row[5])).Some?
      && PyInt(row[0]).Some? && PyInt(row[1]).Some?
    ensures r.Some? ==>
      && r.value.id == PyInt(row[0]).value && r.value.userId == PyInt(row[1]).value
      && r.value.time == row[2] && r.value.kind == row[3]
      && r.value.thoughts == Nullable(row[4]) && r.value.details == Nullable(row[6])
      && (r.value.thoughts.None? <==> row[4] == NULL_MARKER)
      && (r.value.details.None? <==> row[6] == NULL_MARKER)
      && r.value.savedAt == strptime(row[5], FormatOf(row[5])).value
  {
    if |row| != 7 then None
    else match (strptime(row[5], FormatOf(row[5])), PyInt(row[0]), PyInt(row[1]))
      case (Some(savedAt), Some(id), Some(userId)) =>
        Some(HistoryItem(id, userId, row[2], row[3], Nullable(row[4]), Nullable(row[6]), savedAt))
      case _ => None
  }

  /** HistoryRow with the `strptime` it uses fixed. */
  function HistoryConverter(strptime: (string, DateFormat) -> Option<int>): seq<string> -> Option<HistoryItem> {
    row => HistoryRow(row, strptime)
  }

  /** How the dump writes a nullable text field. */
  function NullText(v: Option<string>): string {
    match v
    case None => NULL_MARKER
    case Some(s) => s
  }

  /** A row holding the item's fields as the dump writes them converts to the item. */
  lemma HistoryRowOfFields(h: HistoryItem, row: seq<string>, strptime: (string, DateFormat) -> Option<int>)
    requires |row| == 7 && row[0] == IntToString(h.id) && row[1] == IntToString(h.userId)
    requires row[2] == h.time && row[3] == h.kind && strptime(row[5], FormatOf(row[5])) == Some(h.savedAt)
    requires row[4] == NullText(h.thoughts) && row[6] == NullText(h.details)
    requires h.thoughts != Some(NULL_MARKER) && h.details != Some(NULL_MARKER)
    ensures HistoryRow(row, strptime) == Some(h)
  {
    PyIntOfIntToString(h.id);
    PyIntOfIntToString(h.userId);
  }

  /**
   * A history item written out as a dump row converts back to that item,
   * provided `strptime` reads its timestamp text back and no text field
   * is literally `\N`.
   */
  lemma HistoryRowRoundTrip(h: HistoryItem, stamp: string, strptime: (string, DateFormat) -> Option<int>)
    requires strptime(stamp, FormatOf(stamp)) == Some(h.savedAt)
    requires h.thoughts != Some(NULL_MARKER) && h.details != Some(NULL_MARKER)
    ensures HistoryRow([IntToString(h.id), IntToString(h.userId), h.time, h.kind,
                        NullText(h.thoughts), stamp, NullText(h.details)], strptime) == Some(h)
  {
    var row := [IntToString(h.id), IntToString(h.userId), h.time, h.kind,
                NullText(h.thoughts), stamp, NullText(h.details)];
    HistoryRowOfFields(h, row, strptime);
  }

  /** The converted rows, in order, leaving out the rows that do not convert. */
  function Converted<T>(rows: seq<seq<string>>, convert: seq<string> -> Option<T>): seq<T> {
    if rows == [] then []
    else
      var last := convert(rows[|rows| - 1]);
      Converted(rows[..|rows| - 1], convert) + (if last.Some? then [last.value] else [])
  }

  /** Converting a dump in two parts converts each part, in order. */
  lemma {:induction false} ConvertedAppend<T>(a: seq<seq<string>>, b: seq<seq<string>>, convert: seq<string> -> Option<T>)
    ensures Converted(a + b, convert) == Converted(a, convert) + Converted(b, convert)
    decreases |b|
  {
    if b == [] {
      assert a + b == a;
    } else {
      var init := b[..|b| - 1];
      assert (a + b)[..|a + b| - 1] == a + init;
      assert (a + b)[|a + b| - 1] == b[|b| - 1];
      ConvertedAppend(a, init, convert);
    }
  }

  /** Every element of the result is the conversion of one of the rows; nothing is invented. */
  lemma {:induction false} ConvertedComeFromRows<T>(rows: seq<seq<string>>, convert: seq<string> -> Option<T>)
    ensures |Converted(rows, convert)| <= |rows|
    ensures forall x :: x in Converted(rows, convert) ==> exists row :: row in rows && convert(row) == Some(x)
  {
    if rows != [] {
      var init := rows[..|rows| - 1];
      ConvertedComeFromRows(init, convert);
      assert forall row :: row in init ==> row in rows;
    }
  }

  /** Rows that convert are all kept, in order. */
  lemma {:induction false} ConvertibleRowsAllKept<T>(rows: seq<seq<string>>, convert: seq<string> -> Option<T>)
    requires forall i :: 0 <= i < |rows| ==> convert(rows[i]).Some?
    ensures |Converted(rows, convert)| == |rows|
    ensures forall i :: 0 <= i < |rows| ==> Converted(rows, convert)[i] == convert(rows[i]).value
  {
    if rows != [] {
      var init := rows[..|rows| - 1];
      assert forall i :: 0 <= i < |init| ==> init[i] == rows[i];
      ConvertibleRowsAllKept(init, convert);
    }
  }

  /** The loop of both migrate functions: convert each row, skip the ones that raise ValueError. */
  method ConvertAll<T>(rows: seq<seq<string>>, convert: seq<string> -> Option<T>) returns (added: seq<T>)
    ensures added == Converted(rows, convert)
  {
    added := [];
    var i := 0;
    while i < |rows|
      invariant 0 <= i <= |rows|
      invariant added == Converted(rows[..i], convert)
    {
      assert rows[..i + 1][..i] == rows[..i];
      var item := convert(rows[i]);
      if item.Some? {
        added := added + [item.value];
      }
      i := i + 1;
    }
    assert rows[..|rows|] == rows;
  }

  /** migrate_users: the users the script adds, from the `users` COPY block. */
  method MigrateUsers(sql: string) returns (added: seq<User>)
    ensures added == Converted(CopyRows(sql, "users"), UserRow)
  {
    var rows := ParseCopyData(sql, "users");
    added := ConvertAll(rows, UserRow);
  }

  /** migrate_history_items: the items the script adds, from the `history_items` COPY block. */
  method MigrateHistoryItems(sql: string, strptime: (string, DateFormat) -> Option<int>) returns (added: seq<HistoryItem>)
    ensures added == Converted(CopyRows(sql, "history_items"), HistoryConverter(strptime))
  {
    var rows := ParseCopyData(sql, "history_items");
    added := ConvertAll(rows, HistoryConverter(strptime));
  }
}

/**
  The CSV export of the analytics routes: which rows the export type
  selects, and the conversion of those rows to CSV text. A header line of the
  first row's column names, then one line per row; a text field is wrapped in
  double quotes when it holds a comma, and nothing else is escaped.

  The conversion is compared with section 2 of RFC 4180: it agrees on every
  field without a double quote or a line break, and the lemmas at the end
  show the two ways it departs from the RFC on the others.
*/
module Analytics {
  import opened Wrappers
  import opened Store

  // ---------------------------------------------------------------------
  // Values and their text
  // ---------------------------------------------------------------------

  /** A column value as the store returns it: text, an integer, or NULL. */
  datatype Value = Text(s: string) | Number(n: int) | Null

  datatype Column = Column(name: string, value: Value)

  /** A result row: its columns in the order the query lists them. */
  type Row = seq<Column>

  function DigitChar(d: nat): (c: char)
    requires d < 10
    ensures '0' <= c <= '9' && c as int - '0' as int == d
  {
    "0123456789"[d]
  }

  /** The decimal digits of `n`, most significant first, without leading zeros. */
  function NatToString(n: nat): (r: string)
    ensures |r| >= 1
    ensures forall i :: 0 <= i < |r| ==> '0' <= r[i] <= '9'
    ensures n > 0 ==> r[0] != '0'
    decreases n
  {
    if n < 10 then [DigitChar(n)] else NatToString(n / 10) + [DigitChar(n % 10)]
  }

  /** The text JavaScript gives an integer: a minus sign for a negative one, then the digits. */
  function IntToString(n: int): (r: string)
    ensures forall i :: 0 <= i < |r| ==> r[i] == '-' || '0' <= r[i] <= '9'
  {
    if n < 0 then "-" + NatToString(-n) else NatToString(n)
  }

  /** Reads a string of decimal digits back as a number. */
  function ParseNat(s: string): nat
    requires forall i :: 0 <= i < |s| ==> '0' <= s[i] <= '9'
  {
    if s == [] then 0 else ParseNat(s[..|s| - 1]) * 10 + (s[|s| - 1] as int - '0' as int)
  }

  /** Reads an optional minus sign and decimal digits back as an integer. */
  function ParseInt(s: string): int
    requires |s| >= 1
    requires forall i :: 0 <= i < |s| ==> s[i] == '-' || '0' <= s[i] <= '9'
    requires forall i :: 1 <= i < |s| ==> '0' <= s[i] <= '9'
  {
    if s[0] == '-' then 0 - ParseNat(s[1..]) else ParseNat(s)
  }

  lemma {:induction false} NatRoundTrip(n: nat)
    ensures ParseNat(NatToString(n)) == n
    decreases n
  {
    var s := NatToString(n);
    if n >= 10 {
      NatRoundTrip(n / 10);
      assert s[..|s| - 1] == NatToString(n / 10);
    }
  }

  /** An integer's text reads back as the same integer. */
  lemma IntRoundTrip(n: int)
    ensures |IntToString(n)| >= 1
    ensures forall i :: 1 <= i < |IntToString(n)| ==> '0' <= IntToString(n)[i] <= '9'
    ensures ParseInt(IntToString(n)) == n
  {
    if n < 0 {
      NatRoundTrip(-n);
      assert IntToString(n)[1..] == NatToString(-n);
    } else {
      NatRoundTrip(n);
    }
  }

  /**
    The text of one field: a string holding a comma is wrapped in double
    quotes, any other string is written as it is, an integer as its decimal
    text, and NULL as nothing (Array.prototype.join writes null as "").
  */
  function Field(v: Value): (r: string)
    ensures v.Text? && ',' !in v.s ==> r == v.s
    ensures v.Text? && ',' in v.s ==> r == "\"" + v.s + "\""
    ensures v.Number? ==>
      && |r| >= 1
      && (forall i :: 0 <= i < |r| ==> r[i] == '-' || '0' <= r[i] <= '9')
      && (forall i :: 1 <= i < |r| ==> '0' <= r[i] <= '9')
      && ParseInt(r) == v.n
    ensures v.Null? ==> r == ""
    ensures ',' in r <==> v.Text? && ',' in v.s
  {
    match v
    case Text(s) => if ',' in s then "\"" + s + "\"" else s
    case Number(n) =>
      IntRoundTrip(n);
      var t := IntToString(n);
      assert forall i :: 0 <= i < |t| ==> t[i] != ',';
      t
    case Null => ""
  }

  // ---------------------------------------------------------------------
  // Joining and splitting
  // ---------------------------------------------------------------------

  /** Array.prototype.join with a one-character separator. */
  function Join(parts: seq<string>, sep: char): (r: string)
    ensures |r| >= |parts| - 1
    ensures forall c :: c in r ==> c == sep || exists i :: 0 <= i < |parts| && c in parts[i]
    decreases |parts|
  {
    if |parts| == 0 then ""
    else if |parts| == 1 then parts[0]
    else parts[0] + [sep] + Join(parts[1..], sep)
  }

  /** The pieces of `s` between occurrences of `sep`; String.prototype.split with one character. */
  function Split(s: string, sep: char): (r: seq<string>)
    ensures |r| >= 1
    decreases |s|
  {
    if s == [] then [""]
    else
      var rest := Split(s[1..], sep);
      if s[0] == sep then [""] + rest else [[s[0]] + rest[0]] + rest[1..]
  }

  lemma {:induction false} SplitWithout(a: string, sep: char)
    requires sep !in a
    ensures Split(a, sep) == [a]
    decreases |a|
  {
    if a != [] {
      SplitWithout(a[1..], sep);
      assert [a[0]] + a[1..] == a;
    }
  }

  lemma {:induction false} SplitAfter(a: string, b: string, sep: char)
    requires sep !in a
    ensures Split(a + [sep] + b, sep) == [a] + Split(b, sep)
    decreases |a|
  {
    var s := a + [sep] + b;
    if a == [] {
      assert s[1..] == b;
    } else {
      SplitAfter(a[1..], b, sep);
      assert s[1..] == a[1..] + [sep] + b;
      assert [a[0]] + a[1..] == a;
    }
  }

  /** Joining pieces that do not hold the separator and splitting again gives the pieces back. */
  lemma {:induction false} SplitJoin(parts: seq<string>, sep: char)
    requires |parts| >= 1
    requires forall i :: 0 <= i < |parts| ==> sep !in parts[i]
    ensures Split(Join(parts, sep), sep) == parts
    decreases |parts|
  {
    if |parts| == 1 {
      SplitWithout(parts[0], sep);
    } else {
      SplitJoin(parts[1..], sep);
      SplitAfter(parts[0], Join(parts[1..], sep), sep);
      assert [parts[0]] + parts[1..] == parts;
    }
  }

  // ---------------------------------------------------------------------
  // The conversion
  // ---------------------------------------------------------------------

  function Names(row: Row): (r: seq<string>)
    ensures |r| == |row| && forall i :: 0 <= i < |row| ==> r[i] == row[i].name
  {
    seq(|row|, i requires 0 <= i < |row| => row[i].name)
  }

  function Fields(row: Row): (r: seq<string>)
    ensures |r| == |row| && forall i :: 0 <= i < |row| ==> r[i] == Field(row[i].value)
  {
    seq(|row|, i requires 0 <= i < |row| => Field(row[i].value))
  }

  /** The header line: the column names of a row, comma-separated. */
  function Header(row: Row): string {
    Join(Names(row), ',')
  }

  /** One data line: the fields of a row, comma-separated. */
  function Line(row: Row): string {
    Join(Fields(row), ',')
  }

  function Lines(rows: seq<Row>): (r: seq<string>)
    ensures |r| == |rows| && forall i :: 0 <= i < |rows| ==> r[i] == Line(rows[i])
  {
    seq(|rows|, i requires 0 <= i < |rows| => Line(rows[i]))
  }

  /** The CSV text of a result, or None when there are no rows. */
  function ToCsv(rows: seq<Row>): (r: Option<string>)
    ensures r.None? <==> rows == []
  {
    if rows == [] then None else Some(Join([Header(rows[0])] + Lines(rows), '\n'))
  }

  /** No column name and no text value holds the character `c`. */
  predicate Avoids(rows: seq<Row>, c: char) {
    forall i, j :: 0 <= i < |rows| && 0 <= j < |rows[i]| ==>
      c !in rows[i][j].name && (rows[i][j].value.Text? ==> c !in rows[i][j].value.s)
  }

  lemma FieldAvoids(v: Value, c: char)
    requires c != ',' && c != '"' && c != '-' && !('0' <= c <= '9')
    requires v.Text? ==> c !in v.s
    ensures c !in Field(v)
  {
    if v.Number? {
      var t := IntToString(v.n);
      assert forall i :: 0 <= i < |t| ==> t[i] != c;
    }
  }

  /**
    With no line break in any column name or text value, the CSV text has
    exactly one line more than there are rows: the header of the first row's
    names, then each row's line in order.
  */
  lemma CsvLines(rows: seq<Row>)
    requires rows != []
    requires Avoids(rows, '\n')
    ensures Split(ToCsv(rows).value, '\n') == [Header(rows[0])] + Lines(rows)
    ensures |Split(ToCsv(rows).value, '\n')| == |rows| + 1
  {
    var parts := [Header(rows[0])] + Lines(rows);
    PartsAvoid(rows, '\n');
    SplitJoin(parts, '\n');
  }

  /** The header and the lines avoid a character that no name or text value holds. */
  lemma PartsAvoid(rows: seq<Row>, c: char)
    requires rows != [] && Avoids(rows, c)
    requires c != ',' && c != '"' && c != '-' && !('0' <= c <= '9')
    ensures forall i :: 0 <= i < |rows| + 1 ==> c !in ([Header(rows[0])] + Lines(rows))[i]
  {
    HeaderAvoids(rows, c);
    forall i | 0 <= i < |rows|
      ensures c !in Lines(rows)[i]
    {
      LineAvoids(rows, i, c);
    }
    ConsAvoids(Header(rows[0]), Lines(rows), c);
  }

  /**
    With no comma in any column name, the header line splits at its commas
    into exactly the row's column names.
  */
  lemma HeaderNames(row: Row)
    requires |row| >= 1
    requires forall j :: 0 <= j < |row| ==> ',' !in row[j].name
    ensures Split(Header(row), ',') == Names(row)
  {
    SplitJoin(Names(row), ',');
  }

  /** A character in no column name is not in the header line. */
  lemma HeaderAvoids(rows: seq<Row>, c: char)
    requires rows != [] && Avoids(rows, c) && c != ','
    ensures c !in Header(rows[0])
  {
  }

  lemma ConsAvoids(head: string, tail: seq<string>, c: char)
    requires c !in head
    requires forall i :: 0 <= i < |tail| ==> c !in tail[i]
    ensures forall i :: 0 <= i < |tail| + 1 ==> c !in ([head] + tail)[i]
  {
    forall i | 0 <= i < |tail| + 1
      ensures c !in ([head] + tail)[i]
    {
      if i > 0 {
        assert ([head] + tail)[i] == tail[i - 1];
      }
    }
  }

  /** A character that is no digit, sign, comma or quote, and is in no text value of a row, is not in its line. */
  lemma LineAvoids(rows: seq<Row>, i: nat, c: char)
    requires i < |rows| && Avoids(rows, c)
    requires c != ',' && c != '"' && c != '-' && !('0' <= c <= '9')
    ensures c !in Line(rows[i])
  {
    forall j | 0 <= j < |rows[i]|
      ensures c !in Fields(rows[i])[j]
    {
      FieldAvoids(rows[i][j].value, c);
    }
  }

  /**
    With no comma in any text value, a data line splits at its commas into
    exactly the row's fields, one per column, and a text value comes back
    unchanged.
  */
  lemma LineFields(row: Row)
    requires |row| >= 1
    requires Avoids([row], ',')
    ensures Split(Line(row), ',') == Fields(row)
    ensures forall j :: 0 <= j < |row| && row[j].value.Text? ==> Split(Line(row), ',')[j] == row[j].value.s
  {
    forall j | 0 <= j < |row|
      ensures ',' !in Fields(row)[j]
    {
      assert [row][0][j] == row[j];
      if row[j].value.Number? {
        var t := IntToString(row[j].value.n);
        assert forall i :: 0 <= i < |t| ==> t[i] != ',';
      }
    }
    SplitJoin(Fields(row), ',');
  }

  // ---------------------------------------------------------------------
  // RFC 4180
  // ---------------------------------------------------------------------

  /** Every double quote written twice. */
  function DoubleQuotes(s: string): (r: string)
    ensures '"' !in s ==> r == s
  {
    if s == [] then [] else (if s[0] == '"' then "\"\"" else [s[0]]) + DoubleQuotes(s[1..])
  }

  /** A field as section 2 of RFC 4180 writes it: enclosed, with its quotes doubled, when it holds a comma, a quote or a line break. */
  function RfcField(s: string): string {
    if ',' in s || '"' in s || '\n' in s || '\r' in s then "\"" + DoubleQuotes(s) + "\"" else s
  }

  /** On a text without double quotes or line breaks the route writes what RFC 4180 writes. */
  lemma FieldMatchesRfc(s: string)
    requires '"' !in s && '\n' !in s && '\r' !in s
    ensures Field(Text(s)) == RfcField(s)
  {
  }

  /** Doubling the quotes never shortens a text, and lengthens one that holds a quote. */
  lemma {:induction false} DoubleQuotesLonger(s: string)
    ensures |DoubleQuotes(s)| >= |s|
    ensures '"' in s ==> |DoubleQuotes(s)| > |s|
  {
    if s != [] {
      DoubleQuotesLonger(s[1..]);
      if s[0] != '"' {
        assert '"' in s ==> '"' in s[1..];
      }
    }
  }

  /**
    Quotes inside a text are not doubled: a text holding a comma and a quote
    is enclosed as it is, which is not what RFC 4180 writes, and an RFC 4180
    reader takes its first inner quote for the end of the field.
  */
  lemma QuotesNotDoubled(s: string)
    requires ',' in s && '"' in s
    ensures Field(Text(s)) == "\"" + s + "\""
    ensures Field(Text(s)) != RfcField(s)
  {
    DoubleQuotesLonger(s);
    assert |RfcField(s)| == |DoubleQuotes(s)| + 2;
  }

  /** A text holding a line break but no comma is written bare, where RFC 4180 encloses it. */
  lemma LineBreakNotEnclosed(s: string)
    requires '\n' in s && ',' !in s
    ensures Field(Text(s)) == s
    ensures Field(Text(s)) != RfcField(s)
  {
    DoubleQuotesLonger(s);
    assert |RfcField(s)| == |DoubleQuotes(s)| + 2;
  }

  /** A text holding a line break is not enclosed, so the CSV text gains a line. */
  lemma LineBreakSplitsRow()
    ensures var rows := [[Column("notes", Text("a\nb"))]];
      && ToCsv(rows) == Some("notes\na\nb")
      && |Split(ToCsv(rows).value, '\n')| == |rows| + 2
  {
    var rows := [[Column("notes", Text("a\nb"))]];
    assert ',' !in "a\nb";
    assert Header(rows[0]) == "notes";
    assert Line(rows[0]) == "a\nb";
    assert Lines(rows) == ["a\nb"];
    assert [Header(rows[0])] + Lines(rows) == ["notes", "a\nb"];
    assert Join(["notes", "a\nb"], '\n') == "notes\na\nb";
    SplitAfter("notes", "a\nb", '\n');
    SplitAfter("a", "b", '\n');
    SplitWithout("b", '\n');
  }

  // ---------------------------------------------------------------------
  // The export route
  // ---------------------------------------------------------------------

  /** An inclusive range of days. */
  datatype Range = Range(from: Day, to: Day)

  /** The query an export type runs. */
  datatype Query = GoalsQuery | ProgressQuery(range: Option<Range>)

  /**
    The query of GET /export: type 'goals' or 'progress' (the default is
    'all', which, like any other type, selects nothing); the progress query
    is restricted to a range only when both dates are given.
  */
  function QueryFor(kind: Option<string>, startDate: Option<Day>, endDate: Option<Day>): (r: Option<Query>)
    ensures r == Some(GoalsQuery) <==> kind == Some("goals")
    ensures r.Some? && r.value.ProgressQuery? <==> kind == Some("progress")
    ensures r.Some? && r.value.ProgressQuery? && r.value.range.Some? <==>
      kind == Some("progress") && startDate.Some? && endDate.Some?
    ensures r.Some? && r.value.ProgressQuery? && r.value.range.Some? ==>
      r.value.range.value == Range(startDate.value, endDate.value)
  {
    var t := kind.GetOr("all");
    if t == "goals" then Some(GoalsQuery)
    else if t == "progress" then
      Some(ProgressQuery(if startDate.Some? && endDate.Some? then Some(Range(startDate.value, endDate.value)) else None))
    else None
  }

  function Flag(b: bool): Value {
    if b then Number(1) else Number(0)
  }

  function Nullable(s: Option<string>): Value {
    match s
    case Some(t) => Text(t)
    case None => Null
  }

  function NullableInt(n: Option<int>): Value {
    match n
    case Some(m) => Number(m)
    case None => Null
  }

  /** The columns of the goals query, in order. */
  const GoalColumns: seq<string> :=
    ["id", "title", "description", "category_id", "type", "target_type", "target_value", "is_recurring",
     "is_active", "priority", "streak_count", "longest_streak", "total_completions", "max_carryover_cap"]

  /** The columns of the progress query, in order. */
  const InstanceColumns: seq<string> :=
    ["goal_id", "date", "target_value", "current_value", "is_completed", "carried_over_from", "goal_title"]

  /** A row from its column names and its values, taken pairwise. */
  function Columns(names: seq<string>, values: seq<Value>): (r: Row)
    requires |names| == |values|
    ensures Names(r) == names
    ensures forall j :: 0 <= j < |r| ==> r[j].value == values[j]
  {
    seq(|names|, j requires 0 <= j < |names| => Column(names[j], values[j]))
  }

  /** No text among `values` holds the character `c`. */
  predicate TextsAvoid(values: seq<Value>, c: char) {
    forall j :: 0 <= j < |values| && values[j].Text? ==> c !in values[j].s
  }

  /** A row avoids `c` when its names do and its texts do. */
  lemma ColumnsAvoid(names: seq<string>, values: seq<Value>, c: char)
    requires |names| == |values|
    requires forall j :: 0 <= j < |names| ==> c !in names[j]
    ensures Avoids([Columns(names, values)], c) <==> TextsAvoid(values, c)
  {
    var r := Columns(names, values);
    assert [r][0] == r;
    if !TextsAvoid(values, c) {
      var j :| 0 <= j < |values| && values[j].Text? && c in values[j].s;
      assert [r][0][j].value == values[j];
    }
  }

  /** No column name of either query holds a line break. */
  lemma ColumnNamesPlain()
    ensures forall j :: 0 <= j < |GoalColumns| ==> '\n' !in GoalColumns[j]
    ensures forall j :: 0 <= j < |InstanceColumns| ==> '\n' !in InstanceColumns[j]
  {
  }

  /** The values of a goal's row, in the order of GoalColumns. */
  function GoalValues(id: GoalId, g: Goal): seq<Value> {
    [Number(id), Text(g.title), Nullable(g.description), NullableInt(g.category), Text(CadenceName(g.cadence)),
     Text(TargetKindName(g.kind)), Number(g.target), Flag(g.recurring), Flag(g.active), Text(PriorityName(g.priority)),
     Number(g.streak), Number(g.longest), Number(g.completions), NullableInt(g.cap)]
  }

  /** The texts of a goal's row are its title, its description and the names of its type, target type and priority. */
  lemma GoalTexts(id: GoalId, g: Goal)
    ensures TextsAvoid(GoalValues(id, g), '\n') <==>
      '\n' !in g.title && (g.description.Some? ==> '\n' !in g.description.value)
  {
    var v := GoalValues(id, g);
    if '\n' in g.title {
      assert v[1] == Text(g.title);
    } else if g.description.Some? && '\n' in g.description.value {
      assert v[2] == Text(g.description.value);
    } else {
      assert '\n' !in CadenceName(g.cadence) && '\n' !in TargetKindName(g.kind) && '\n' !in PriorityName(g.priority);
      forall j | 0 <= j < |v| && v[j].Text?
        ensures '\n' !in v[j].s
      {
        assert j == 1 || j == 2 || j == 4 || j == 5 || j == 9;
      }
    }
  }

  /**
    A row of the goals query. Its only free text is the title and the
    description: the row holds a line break iff one of them does.
  */
  function GoalRow(id: GoalId, g: Goal): (r: Row)
    ensures Names(r) == GoalColumns
    ensures Avoids([r], '\n') <==> '\n' !in g.title && (g.description.Some? ==> '\n' !in g.description.value)
  {
    ColumnNamesPlain();
    ColumnsAvoid(GoalColumns, GoalValues(id, g), '\n');
    GoalTexts(id, g);
    Columns(GoalColumns, GoalValues(id, g))
  }

  /**
    A row of the progress query: the instance joined with its goal's title,
    its only free text, so the row holds a line break iff the title does.
  */
  function InstanceRow(k: Key, inst: Instance, title: string): (r: Row)
    ensures Names(r) == InstanceColumns
    ensures Avoids([r], '\n') <==> '\n' !in title
  {
    var values :=
      [Number(k.goal), Number(k.day), Number(inst.target), Number(inst.current), Flag(inst.completed),
       NullableInt(inst.carriedFrom), Text(title)];
    ColumnNamesPlain();
    ColumnsAvoid(InstanceColumns, values, '\n');
    assert TextsAvoid(values, '\n') <==> '\n' !in values[6].s;
    Columns(InstanceColumns, values)
  }

  /** The instances the progress query returns: those whose goal exists (the JOIN), within the range if there is one. */
  function ProgressKeys(goals: map<GoalId, Goal>, insts: map<Key, Instance>, range: Option<Range>): (s: set<Key>)
    ensures forall k :: k in s <==>
      k in insts && k.goal in goals && (range.Some? ==> range.value.from <= k.day <= range.value.to)
  {
    set k | k in insts && k.goal in goals && (range.Some? ==> range.value.from <= k.day <= range.value.to)
  }

  /** What the route answers: the no-data object, or a CSV attachment. */
  datatype Export = NoData | CsvFile(name: string, csv: string)

  function FileName(q: Option<Query>): string {
    match q
    case Some(GoalsQuery) => "goals-export"
    case Some(ProgressQuery(_)) => "progress-export"
    case None => "goal-manager-export"
  }

  /** The answer for a list of rows: the CSV text when there are any rows, the no-data object otherwise. */
  function Answer(name: string, rows: seq<Row>): (r: Export)
    ensures r.NoData? <==> rows == []
    ensures r.CsvFile? ==> r.name == name && Some(r.csv) == ToCsv(rows)
  {
    match ToCsv(rows)
    case None => NoData
    case Some(csv) => CsvFile(name, csv)
  }

  /** SELECT over the goals table, in the order the store happens to return the rows. */
  method SelectGoals(db: Db) returns (ids: seq<GoalId>, rows: seq<Row>)
    ensures |ids| == |rows| == |db.goals|
    ensures forall id :: id in ids <==> id in db.goals
    ensures forall j, k :: 0 <= j < k < |ids| ==> ids[j] != ids[k]
    ensures forall j :: 0 <= j < |ids| ==> ids[j] in db.goals && rows[j] == GoalRow(ids[j], db.goals[ids[j]])
  {
    var goals := db.goals;
    ids := Enumerate(goals.Keys);
    rows := seq(|ids|, j requires 0 <= j < |ids| => GoalRow(ids[j], goals[ids[j]]));
  }

  /** SELECT over goal_instances joined with goals, in the order the store happens to return the rows. */
  method SelectProgress(db: Db, range: Option<Range>) returns (keys: seq<Key>, rows: seq<Row>)
    ensures |keys| == |rows| == |ProgressKeys(db.goals, db.instances, range)|
    ensures forall k :: k in keys <==> k in ProgressKeys(db.goals, db.instances, range)
    ensures forall j, k :: 0 <= j < k < |keys| ==> keys[j] != keys[k]
    ensures forall j :: 0 <= j < |keys| ==>
      keys[j] in db.instances && keys[j].goal in db.goals
      && rows[j] == InstanceRow(keys[j], db.instances[keys[j]], db.goals[keys[j].goal].title)
  {
    var goals, insts := db.goals, db.instances;
    keys := Enumerate(ProgressKeys(goals, insts, range));
    assert forall j :: 0 <= j < |keys| ==> keys[j] in ProgressKeys(goals, insts, range);
    rows := seq(|keys|, j requires 0 <= j < |keys| => InstanceRow(keys[j], insts[keys[j]], goals[keys[j].goal].title));
  }

  /**
    GET /export. Only 'goals' and 'progress' fetch rows; with no rows (an
    empty table, an empty range, or any other type) the answer is the
    no-data object, otherwise the CSV text of the rows. `ids` and `keys`
    name the goal or instance each row was read from.
  */
  method ExportData(db: Db, kind: Option<string>, startDate: Option<Day>, endDate: Option<Day>)
    returns (ids: seq<GoalId>, keys: seq<Key>, rows: seq<Row>, answer: Export)
    ensures answer == Answer(FileName(QueryFor(kind, startDate, endDate)), rows)
    ensures kind != Some("goals") && kind != Some("progress") ==> rows == [] && answer == NoData
    ensures kind != Some("goals") ==> ids == []
    ensures kind != Some("progress") ==> keys == []
    ensures kind == Some("goals") ==>
      && |ids| == |rows| == |db.goals|
      && (forall id :: id in ids <==> id in db.goals)
      && (forall j, k :: 0 <= j < k < |ids| ==> ids[j] != ids[k])
      && (forall j :: 0 <= j < |ids| ==> ids[j] in db.goals && rows[j] == GoalRow(ids[j], db.goals[ids[j]]))
    ensures kind == Some("progress") ==>
      && |keys| == |rows|
      && (forall k :: k in keys <==>
            k in db.instances && k.goal in db.goals
            && (startDate.Some? && endDate.Some? ==> startDate.value <= k.day <= endDate.value))
      && (forall j, k :: 0 <= j < k < |keys| ==> keys[j] != keys[k])
      && (forall j :: 0 <= j < |keys| ==>
            keys[j] in db.instances && keys[j].goal in db.goals
            && rows[j] == InstanceRow(keys[j], db.instances[keys[j]], db.goals[keys[j].goal].title))
  {
    var query := QueryFor(kind, startDate, endDate);
    ids, keys, rows := [], [], [];
    if query == Some(GoalsQuery) {
      ids, rows := SelectGoals(db);
    } else if query.Some? {
      keys, rows := SelectProgress(db, query.value.range);
    }
    answer := if rows == [] then NoData else CsvFile(FileName(query), ToCsv(rows).value);
  }

  /** A character in no row taken alone is in none of the rows. */
  lemma AvoidsEach(rows: seq<Row>, c: char)
    requires forall j :: 0 <= j < |rows| ==> Avoids([rows[j]], c)
    ensures Avoids(rows, c)
  {
    forall i, j | 0 <= i < |rows| && 0 <= j < |rows[i]|
      ensures c !in rows[i][j].name && (rows[i][j].value.Text? ==> c !in rows[i][j].value.s)
    {
      assert [rows[i]][0] == rows[i];
    }
  }

  /**
    A goals export whose titles and descriptions hold no line break has one
    line more than there are goals: the fixed header of the goals columns,
    then one line per goal.
  */
  lemma GoalsExportLines(goals: map<GoalId, Goal>, ids: seq<GoalId>, rows: seq<Row>)
    requires |ids| == |rows| >= 1
    requires forall j :: 0 <= j < |ids| ==> ids[j] in goals && rows[j] == GoalRow(ids[j], goals[ids[j]])
    requires forall j :: 0 <= j < |ids| ==>
      '\n' !in goals[ids[j]].title && (goals[ids[j]].description.Some? ==> '\n' !in goals[ids[j]].description.value)
    ensures Split(ToCsv(rows).value, '\n') == [Join(GoalColumns, ',')] + Lines(rows)
    ensures |Split(ToCsv(rows).value, '\n')| == |ids| + 1
  {
    AvoidsEach(rows, '\n');
    CsvLines(rows);
  }

  /**
    A progress export whose goal titles hold no line break has one line more
    than there are instances: the fixed header of the progress columns, then
    one line per instance.
  */
  lemma ProgressExportLines(goals: map<GoalId, Goal>, insts: map<Key, Instance>, keys: seq<Key>, rows: seq<Row>)
    requires |keys| == |rows| >= 1
    requires forall j :: 0 <= j < |keys| ==>
      keys[j] in insts && keys[j].goal in goals && rows[j] == InstanceRow(keys[j], insts[keys[j]], goals[keys[j].goal].title)
    requires forall j :: 0 <= j < |keys| ==> '\n' !in goals[keys[j].goal].title
    ensures Split(ToCsv(rows).value, '\n') == [Join(InstanceColumns, ',')] + Lines(rows)
    ensures |Split(ToCsv(rows).value, '\n')| == |keys| + 1
  {
    AvoidsEach(rows, '\n');
    CsvLines(rows);
  }
}

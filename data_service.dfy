/** `services/dataService.ts`: turning the six published sheets into one
    employee snapshot. The network requests are not modelled: the caller
    passes in what the six requests returned. */
module DataService {
  import opened Wrappers
  import opened Seqs
  import opened Text
  import opened Csv
  import opened Columns
  import opened Amounts

  /** The administrative profile, one text field per admin-sheet column. */
  datatype Profile = Profile(
    id: string, name: string, education: string, job: string, grade: string,
    stage: string, salary: string, promoDate: string, lastBonus: string,
    duePre: string, thanks: string, duePost: string, joinDate: string,
    promoStatus: string, rollover: string, annualLeave: string,
    sickLeave: string, img: string, jobTitle: string)

  /** One salary line item. */
  datatype Detail = Detail(heading: string, value: string)

  /** One salary statement. `netSalary` and `rawDate` are `undefined`
      (`None`) when the row is shorter than their column. */
  datatype SalaryRecord = SalaryRecord(
    month: string, year: string, netSalary: Option<string>,
    details: seq<Detail>, rawDate: Option<string>)

  /** One bonus, dispatch or extra-hours record. */
  datatype LedgerRecord = LedgerRecord(name: Option<string>, amount: Amount, date: Option<string>)

  /** The snapshot the portal shows and caches. */
  datatype Employee = Employee(
    profile: Profile, salaryHistory: seq<SalaryRecord>,
    bonuses: seq<LedgerRecord>, dispatches: seq<LedgerRecord>,
    extraHours: seq<LedgerRecord>)

  /** What one request produced: a response, or a rejected `fetch`. */
  datatype Response = Response(ok: bool, status: int, body: string) | Unreachable

  datatype Responses = Responses(
    admin: Response, currentSalary: Response, archiveSalary: Response,
    bonus: Response, dispatches: Response, extraHours: Response)

  /** The errors `fetchEmployeeData` throws. */
  datatype FetchError =
    | NetworkError            // a request was rejected
    | ServerError(status: int) // a response was not ok
    | IdMissing               // no admin row and the id is empty
    | AdminRecordMissing      // no admin row for a non-empty id
    | MalformedRow            // a matching ledger row lacks its amount cell

  /** Locale services and the clock the data service consults:
      `new Date().getFullYear()`, the long Arabic month name of
      `new Date(year, monthIndex)`, `encodeURIComponent`, and the
      locale-formatted amount used in notification messages. */
  datatype Locale = Locale(
    currentYear: string,
    monthName: (int, int) -> string,
    encodeUri: string -> string,
    formatAmount: Amount -> string)

  const IdHeader := "الرقم الوظيفي"
  const NetSalaryHeader := "صافي الراتب"
  const SalaryDateHeader := "التاريخ"
  const CurrentMonth := "الحالي"
  const NameHeaders := ["اسم", "عنوان", "السبب", "نوع", "البيان"]
  const DateHeaders := ["تاريخ", "Date", "date", "وقت", "شهر"]

  // ---------------------------------------------------------------------
  // Administrative profile

  /** `rows.find(row => row[0] === id)`. */
  function FindAdminRow(rows: seq<Row>, id: string): (r: Option<Row>)
    ensures r.None? <==> forall k :: 0 <= k < |rows| ==> Cell(rows[k], 0) != Some(id)
    ensures r.Some? ==> exists k ::
      && 0 <= k < |rows| && rows[k] == r.value && Cell(r.value, 0) == Some(id)
      && forall j :: 0 <= j < k ==> Cell(rows[j], 0) != Some(id)
  {
    if rows == [] then None
    else if Cell(rows[0], 0) == Some(id) then Some(rows[0])
    else
      var r := FindAdminRow(rows[1..], id);
      assert forall k :: 1 <= k < |rows| ==> rows[k] == rows[1..][k - 1];
      r
  }

  /** `row[i] || fallback`: the cell unless it is missing or empty. */
  function CellOr(row: Row, i: int, fallback: string): (r: string)
    ensures r == fallback || (0 <= i < |row| && r == row[i] != "")
    ensures 0 <= i < |row| && row[i] != "" ==> r == row[i]
  {
    match Cell(row, i)
    case Some(c) => if c != "" then c else fallback
    case None => fallback
  }

  /** The profile built from an admin row; column 15 is skipped. */
  function BuildProfile(row: Row, locale: Locale): Profile {
    Profile(
      id := CellOr(row, 0, ""), name := CellOr(row, 1, ""),
      education := CellOr(row, 2, ""), job := CellOr(row, 3, ""),
      grade := CellOr(row, 4, ""), stage := CellOr(row, 5, ""),
      salary := CellOr(row, 6, ""), promoDate := CellOr(row, 7, ""),
      lastBonus := CellOr(row, 8, ""), duePre := CellOr(row, 9, ""),
      thanks := CellOr(row, 10, ""), duePost := CellOr(row, 11, ""),
      joinDate := CellOr(row, 12, ""), promoStatus := CellOr(row, 13, ""),
      rollover := CellOr(row, 14, ""),
      annualLeave := CellOr(row, 16, "0"), sickLeave := CellOr(row, 17, "0"),
      img := "https://ui-avatars.com/api/?name=" + locale.encodeUri(CellOr(row, 1, "User"))
        + "&background=random",
      jobTitle := CellOr(row, 3, ""))
  }

  /** The admin lookup of `fetchEmployeeData` over the parsed admin sheet. */
  function LookupProfile(rows: seq<Row>, id: string, locale: Locale): Result<Profile, FetchError> {
    match FindAdminRow(rows, id)
    case None => if id == "" then Err(IdMissing) else Err(AdminRecordMissing)
    case Some(row) => Ok(BuildProfile(row, locale))
  }

  /** The lookup succeeds exactly when some admin row has the id in column 0;
      it then carries that id and defaults the two leave balances to "0".
      Otherwise the error says whether the id was empty. */
  lemma LookupProfileSpec(rows: seq<Row>, id: string, locale: Locale)
    ensures LookupProfile(rows, id, locale).Ok? <==> exists k :: 0 <= k < |rows| && Cell(rows[k], 0) == Some(id)
    ensures var r := LookupProfile(rows, id, locale);
      && (r.Ok? ==> r.value.id == id)
      && (r.Ok? ==> r.value.annualLeave != "" && r.value.sickLeave != "")
      && (r.Err? ==> r.error == (if id == "" then IdMissing else AdminRecordMissing))
  {
    match FindAdminRow(rows, id)
    case None =>
    case Some(row) =>
      assert Cell(row, 0) == Some(id);
  }

  // ---------------------------------------------------------------------
  // Salary sheets

  /** The data rows whose id cell is exactly `id` (`row[idIndex] === id`). */
  function MatchingRows(rows: seq<Row>, idIndex: int, id: string): (m: seq<Row>)
    ensures |m| <= |rows| && Subsequence(m, rows)
    ensures forall row :: row in m <==> row in rows && Cell(row, idIndex) == Some(id)
    ensures forall row :: multiset(m)[row] == if Cell(row, idIndex) == Some(id) then multiset(rows)[row] else 0
  {
    var p := (row: Row) => Cell(row, idIndex) == Some(id);
    FilterSubsequence(rows, p);
    forall row ensures row in Filter(rows, p) <==> row in rows && p(row) {
      FilterMember(rows, p, row);
    }
    forall row ensures multiset(Filter(rows, p))[row] == if p(row) then multiset(rows)[row] else 0 {
      FilterMultiplicity(rows, p, row);
    }
    Filter(rows, p)
  }

  /** Column `i` of the row becomes a line item: not the id or date column,
      a cell that is neither missing, empty nor "0", and a non-blank header. */
  predicate Kept(header: Row, row: Row, idIndex: int, dateIndex: int, i: int) {
    && 0 <= i < |header| && i != idIndex && i != dateIndex
    && i < |row| && row[i] != "" && row[i] != "0"
    && !Blank(header[i])
  }

  /** The line items of the first `n` header columns, in header order. */
  function DetailsUpTo(header: Row, row: Row, idIndex: int, dateIndex: int, n: nat): seq<Detail>
    requires n <= |header|
  {
    if n == 0 then []
    else
      DetailsUpTo(header, row, idIndex, dateIndex, n - 1)
      + if Kept(header, row, idIndex, dateIndex, n - 1) then [Detail(header[n - 1], row[n - 1])] else []
  }

  /** The `details` of a statement. */
  function Details(header: Row, row: Row, idIndex: int, dateIndex: int): seq<Detail> {
    DetailsUpTo(header, row, idIndex, dateIndex, |header|)
  }

  /** The kept columns among the first `n`, in increasing order. */
  function KeptColumns(header: Row, row: Row, idIndex: int, dateIndex: int, n: nat): (cols: seq<nat>)
    requires n <= |header|
    ensures forall k :: 0 <= k < |cols| ==> cols[k] < n && Kept(header, row, idIndex, dateIndex, cols[k])
    ensures forall i :: 0 <= i < n && Kept(header, row, idIndex, dateIndex, i) ==> i in cols
    ensures forall j, k :: 0 <= j < k < |cols| ==> cols[j] < cols[k]
  {
    if n == 0 then []
    else
      KeptColumns(header, row, idIndex, dateIndex, n - 1)
      + if Kept(header, row, idIndex, dateIndex, n - 1) then [n - 1] else []
  }

  /** There is one line item per kept column, in header order: the k-th
      item is the (header, cell) pair of the k-th kept column. Hence a line
      item is present exactly when it is the (header, cell) of a kept
      column. */
  lemma {:induction false} DetailsSpec(header: Row, row: Row, idIndex: int, dateIndex: int, n: nat)
    requires n <= |header|
    ensures var cols := KeptColumns(header, row, idIndex, dateIndex, n);
      var details := DetailsUpTo(header, row, idIndex, dateIndex, n);
      && |details| == |cols|
      && forall k :: 0 <= k < |details| ==> details[k] == Detail(header[cols[k]], row[cols[k]])
    ensures forall d :: d in DetailsUpTo(header, row, idIndex, dateIndex, n) <==>
      exists i :: 0 <= i < n && Kept(header, row, idIndex, dateIndex, i) && d == Detail(header[i], row[i])
  {
    if n > 0 {
      DetailsSpec(header, row, idIndex, dateIndex, n - 1);
    }
  }

  /** The `header.forEach` loop that pushes the line items of a row. */
  method CollectDetails(header: Row, row: Row, idIndex: int, dateIndex: int) returns (details: seq<Detail>)
    ensures details == Details(header, row, idIndex, dateIndex)
    ensures forall d :: d in details <==>
      exists i :: 0 <= i < |header| && Kept(header, row, idIndex, dateIndex, i) && d == Detail(header[i], row[i])
  {
    details := [];
    for idx := 0 to |header|
      invariant details == DetailsUpTo(header, row, idIndex, dateIndex, idx)
    {
      var keep := idx != idIndex && idx != dateIndex && idx < |row| && row[idx] != "" && row[idx] != "0"
        && Trim(header[idx]) != "";
      BlankTrim(header[idx]);
      assert keep == Kept(header, row, idIndex, dateIndex, idx);
      if keep {
        details := details + [Detail(header[idx], row[idx])];
      }
    }
    DetailsSpec(header, row, idIndex, dateIndex, |header|);
  }

  /** The year and month groups of a match of `(\d{4})[/-](\d{1,2})`. */
  datatype YearMonth = YearMonth(year: string, month: string)

  /** The pattern matches at position `i`. */
  predicate MatchesAt(s: string, i: int) {
    && 0 <= i && i + 6 <= |s|
    && IsDigit(s[i]) && IsDigit(s[i + 1]) && IsDigit(s[i + 2]) && IsDigit(s[i + 3])
    && (s[i + 4] == '/' || s[i + 4] == '-')
    && IsDigit(s[i + 5])
  }

  /** The greedy `\d{1,2}` group of a match at `i`. */
  function MonthDigits(s: string, i: int): string
    requires MatchesAt(s, i)
  {
    if i + 6 < |s| && IsDigit(s[i + 6]) then s[i + 5..i + 7] else s[i + 5..i + 6]
  }

  /** `s.match(/(\d{4})[/-](\d{1,2})/)` searching from position `i`: the
      leftmost match, whose year group is four digits and whose month group
      is one or two digits, or `None` when no position matches. */
  function MatchFrom(s: string, i: nat): (r: Option<YearMonth>)
    decreases |s| - i
    ensures r.None? <==> forall j :: i <= j < |s| ==> !MatchesAt(s, j)
    ensures r.Some? ==> |r.value.year| == 4 && AllDigits(r.value.year)
    ensures r.Some? ==> 1 <= |r.value.month| <= 2 && AllDigits(r.value.month)
    ensures r.Some? ==> exists j ::
      && i <= j && MatchesAt(s, j) && (forall k :: i <= k < j ==> !MatchesAt(s, k))
      && r.value == YearMonth(s[j..j + 4], MonthDigits(s, j))
  {
    if i + 6 > |s| then None
    else if MatchesAt(s, i) then Some(YearMonth(s[i..i + 4], MonthDigits(s, i)))
    else MatchFrom(s, i + 1)
  }

  /** One salary statement built from a matching row. */
  function Statement(header: Row, row: Row, idIndex: int, netIndex: int, dateIndex: int, locale: Locale): SalaryRecord {
    var dateStr := if dateIndex != -1 then Cell(row, dateIndex) else Some("");
    var found := if dateStr.Some? && dateStr.value != "" then MatchFrom(dateStr.value, 0) else None;
    var month := match found
      case Some(ym) => locale.monthName(DigitsValue(ym.year), DigitsValue(ym.month) - 1)
      case None => CurrentMonth;
    var year := match found
      case Some(ym) => ym.year
      case None => locale.currentYear;
    SalaryRecord(
      month := month, year := year,
      netSalary := if netIndex != -1 then Cell(row, netIndex) else Some("0"),
      details := Details(header, row, idIndex, dateIndex),
      rawDate := dateStr)
  }

  /** The statement's date fields: the year is the four-digit group of the
      first year/month match in a non-empty date cell; otherwise the month is
      the "current" sentinel and the year the current one. Without a net
      salary column the net salary is "0". */
  lemma StatementFields(header: Row, row: Row, idIndex: int, netIndex: int, dateIndex: int, locale: Locale)
    ensures var st := Statement(header, row, idIndex, netIndex, dateIndex, locale);
      && (st.rawDate.Some? && st.rawDate.value != "" && MatchFrom(st.rawDate.value, 0).Some? ==>
            |st.year| == 4 && AllDigits(st.year) && st.year == MatchFrom(st.rawDate.value, 0).value.year)
      && (st.rawDate.None? || st.rawDate == Some("") || MatchFrom(st.rawDate.value, 0).None? ==>
            st.month == CurrentMonth && st.year == locale.currentYear)
      && (dateIndex == -1 ==> st.rawDate == Some(""))
      && (netIndex == -1 ==> st.netSalary == Some("0"))
  {
  }

  /** `parseSalarySheet` over the parsed rows of a salary sheet. */
  function SalaryStatements(rows: seq<Row>, id: string, locale: Locale): seq<SalaryRecord> {
    if |rows| < 2 then []
    else
      var header := rows[0];
      var idIndex := FindColumn(header, IdHeader);
      var netIndex := FindColumn(header, NetSalaryHeader);
      var dateIndex := FindColumn(header, SalaryDateHeader);
      if idIndex == -1 then []
      else
        StatementsOf(header, MatchingRows(rows[1..], idIndex, id), idIndex, netIndex, dateIndex, locale)
  }

  /** One statement per row, in row order. */
  function StatementsOf(header: Row, m: seq<Row>, idIndex: int, netIndex: int, dateIndex: int, locale: Locale)
    : (r: seq<SalaryRecord>)
    ensures |r| == |m|
    ensures forall st :: st in r <==>
      exists row :: row in m && st == Statement(header, row, idIndex, netIndex, dateIndex, locale)
  {
    var r := seq(|m|, k requires 0 <= k < |m| => Statement(header, m[k], idIndex, netIndex, dateIndex, locale));
    assert forall row :: row in m ==> Statement(header, row, idIndex, netIndex, dateIndex, locale) in r by {
      forall row | row in m ensures Statement(header, row, idIndex, netIndex, dateIndex, locale) in r {
        var k :| 0 <= k < |m| && m[k] == row;
        assert r[k] == Statement(header, row, idIndex, netIndex, dateIndex, locale);
      }
    }
    r
  }

  /** `parseSalarySheet(csv)`. */
  function ParseSalarySheet(csv: string, id: string, locale: Locale): seq<SalaryRecord> {
    SalaryStatements(ParseCsv(csv), id, locale)
  }

  /** A salary sheet gives nothing when it has no data row or no id column;
      otherwise one statement per data row whose id cell is exactly `id`,
      and each statement comes from such a row. */
  lemma SalarySheetSpec(rows: seq<Row>, id: string, locale: Locale)
    ensures |rows| < 2 || FindColumn(rows[0], IdHeader) == -1 ==> SalaryStatements(rows, id, locale) == []
    ensures |rows| >= 2 ==> |SalaryStatements(rows, id, locale)| <= |rows| - 1
    ensures |rows| >= 2 && FindColumn(rows[0], IdHeader) != -1 ==>
      var header := rows[0];
      var idIndex := FindColumn(header, IdHeader);
      var netIndex := FindColumn(header, NetSalaryHeader);
      var dateIndex := FindColumn(header, SalaryDateHeader);
      forall st :: st in SalaryStatements(rows, id, locale) <==>
        exists row :: row in rows[1..] && Cell(row, idIndex) == Some(id)
          && st == Statement(header, row, idIndex, netIndex, dateIndex, locale)
  {
  }

  /** The statements follow the matching data rows one for one, in row
      order. */
  lemma SalarySheetOrder(rows: seq<Row>, id: string, locale: Locale)
    requires |rows| >= 2 && FindColumn(rows[0], IdHeader) != -1
    ensures var header := rows[0];
      var idIndex := FindColumn(header, IdHeader);
      var m := MatchingRows(rows[1..], idIndex, id);
      var r := SalaryStatements(rows, id, locale);
      && |r| == |m|
      && forall k :: 0 <= k < |r| ==>
        r[k] == Statement(header, m[k], idIndex, FindColumn(header, NetSalaryHeader), FindColumn(header, SalaryDateHeader), locale)
  {
  }

  // ---------------------------------------------------------------------
  // Salary history order

  /** JavaScript's `a < b` on strings: lexicographic by character. */
  predicate Less(a: string, b: string) {
    if a == [] then b != []
    else if b == [] then false
    else a[0] < b[0] || (a[0] == b[0] && Less(a[1..], b[1..]))
  }

  lemma {:induction false} LessIrreflexive(a: string)
    ensures !Less(a, a)
  {
    if a != [] {
      LessIrreflexive(a[1..]);
    }
  }

  lemma {:induction false} LessTransitive(a: string, b: string, c: string)
    requires Less(a, b) && Less(b, c)
    ensures Less(a, c)
  {
    if a != [] && b != [] && c != [] && a[0] == b[0] == c[0] {
      LessTransitive(a[1..], b[1..], c[1..]);
    }
  }

  lemma {:induction false} LessTotal(a: string, b: string)
    ensures a == b || Less(a, b) || Less(b, a)
  {
    if a != [] && b != [] && a[0] == b[0] {
      LessTotal(a[1..], b[1..]);
      if a[1..] == b[1..] {
        assert a == [a[0]] + a[1..] && b == [b[0]] + b[1..];
      }
    }
  }

  /** The raw date is present and non-empty (`a.raw_date` is truthy). */
  predicate HasDate(r: SalaryRecord) {
    r.rawDate.Some? && r.rawDate.value != ""
  }

  /** The comparator puts `a` first: both dates present and `a`'s later. */
  predicate Before(a: SalaryRecord, b: SalaryRecord) {
    HasDate(a) && HasDate(b) && Less(b.rawDate.value, a.rawDate.value)
  }

  /** Inserts `x` before the first element the comparator puts after it. */
  function Insert(x: SalaryRecord, s: seq<SalaryRecord>): (r: seq<SalaryRecord>)
    ensures multiset(r) == multiset(s) + multiset{x}
  {
    if s == [] then [x]
    else if Before(x, s[0]) then [x] + s
    else
      assert s == [s[0]] + s[1..];
      [s[0]] + Insert(x, s[1..])
  }

  /** `[...current, ...archive].sort(comparator)`, as an insertion sort in
      input order. */
  function SortByDate(s: seq<SalaryRecord>): seq<SalaryRecord> {
    if s == [] then [] else Insert(s[|s| - 1], SortByDate(s[..|s| - 1]))
  }

  /** Sorting only reorders: the history holds every statement of both
      sheets, as often as they do. */
  lemma {:induction false} SortPermutation(s: seq<SalaryRecord>)
    ensures multiset(SortByDate(s)) == multiset(s)
    ensures |SortByDate(s)| == |s|
  {
    if s != [] {
      SortPermutation(s[..|s| - 1]);
      assert s == s[..|s| - 1] + [s[|s| - 1]];
    }
    assert |multiset(SortByDate(s))| == |SortByDate(s)|;
  }

  /** Every date is present and no later date follows an earlier one. */
  predicate DescendingDates(s: seq<SalaryRecord>) {
    && (forall k :: 0 <= k < |s| ==> HasDate(s[k]))
    && forall i, j :: 0 <= i < j < |s| ==> !Less(s[i].rawDate.value, s[j].rawDate.value)
  }

  lemma {:induction false} InsertDescending(x: SalaryRecord, s: seq<SalaryRecord>)
    requires HasDate(x) && DescendingDates(s)
    ensures DescendingDates(Insert(x, s))
  {
    if s != [] {
      if Before(x, s[0]) {
        forall j | 0 <= j < |s| ensures !Less(x.rawDate.value, s[j].rawDate.value) {
          if Less(x.rawDate.value, s[j].rawDate.value) {
            LessTransitive(s[0].rawDate.value, x.rawDate.value, s[j].rawDate.value);
            if j == 0 { LessIrreflexive(s[0].rawDate.value); }
          }
        }
        ConsDescending(x, s);
      } else {
        InsertDescending(x, s[1..]);
        var r := Insert(x, s[1..]);
        forall j | 0 <= j < |r| ensures !Less(s[0].rawDate.value, r[j].rawDate.value) {
          assert r[j] in multiset(r);
        }
        ConsDescending(s[0], r);
      }
    }
  }

  /** A dated record no earlier than every date of a descending list can go
      in front of it. */
  lemma ConsDescending(h: SalaryRecord, r: seq<SalaryRecord>)
    requires HasDate(h) && DescendingDates(r)
    requires forall j :: 0 <= j < |r| ==> !Less(h.rawDate.value, r[j].rawDate.value)
    ensures DescendingDates([h] + r)
  {
    var c := [h] + r;
    forall i, j | 0 <= i < j < |c| ensures !Less(c[i].rawDate.value, c[j].rawDate.value) {
      assert c[j] == r[j - 1];
      if i > 0 {
        assert c[i] == r[i - 1];
      }
    }
  }

  /** When every statement has a date, the history runs from the latest
      date to the earliest. */
  lemma {:induction false} SortDescending(s: seq<SalaryRecord>)
    requires forall k :: 0 <= k < |s| ==> HasDate(s[k])
    ensures DescendingDates(SortByDate(s))
  {
    if s != [] {
      SortDescending(s[..|s| - 1]);
      InsertDescending(s[|s| - 1], SortByDate(s[..|s| - 1]));
    }
  }

  /** Every date is present and each is later than the ones after it. */
  predicate StrictlyDescendingDates(s: seq<SalaryRecord>) {
    && (forall k :: 0 <= k < |s| ==> HasDate(s[k]))
    && forall i, j :: 0 <= i < j < |s| ==> Less(s[j].rawDate.value, s[i].rawDate.value)
  }

  lemma {:induction false} InsertStrictlyDescending(x: SalaryRecord, s: seq<SalaryRecord>)
    requires HasDate(x) && StrictlyDescendingDates(s)
    requires forall y :: y in s ==> y.rawDate != x.rawDate
    ensures StrictlyDescendingDates(Insert(x, s))
  {
    if s == [] {
    } else if Before(x, s[0]) {
      forall y | y in s ensures Less(y.rawDate.value, x.rawDate.value) {
        var j :| 0 <= j < |s| && s[j] == y;
        if j > 0 {
          LessTransitive(s[j].rawDate.value, s[0].rawDate.value, x.rawDate.value);
        }
      }
      ConsStrictlyDescending(x, s);
    } else {
      var t := s[1..];
      assert forall y :: y in t ==> y in s;
      InsertStrictlyDescending(x, t);
      var r := Insert(x, t);
      LessTotal(x.rawDate.value, s[0].rawDate.value);
      assert Less(x.rawDate.value, s[0].rawDate.value);
      assert s == [s[0]] + t;
      InsertBelow(x, t, s[0]);
      ConsStrictlyDescending(s[0], r);
    }
  }

  /** Inserting a record dated before `h` into a list dated before `h`
      keeps every date before `h`. */
  lemma InsertBelow(x: SalaryRecord, t: seq<SalaryRecord>, h: SalaryRecord)
    requires HasDate(x) && HasDate(h) && Less(x.rawDate.value, h.rawDate.value)
    requires StrictlyDescendingDates([h] + t)
    ensures forall y :: y in Insert(x, t) ==> HasDate(y) && Less(y.rawDate.value, h.rawDate.value)
  {
    forall y | y in Insert(x, t) ensures HasDate(y) && Less(y.rawDate.value, h.rawDate.value) {
      InsertMember(x, t, y);
      if y != x {
        var c := [h] + t;
        var j :| 0 <= j < |t| && t[j] == y;
        assert c[0] == h && c[j + 1] == y;
        assert Less(c[j + 1].rawDate.value, c[0].rawDate.value);
      }
    }
  }

  /** An element of an insertion is the inserted one or one of the list's. */
  lemma InsertMember(x: SalaryRecord, t: seq<SalaryRecord>, y: SalaryRecord)
    requires y in Insert(x, t)
    ensures y == x || y in t
  {
    assert y in multiset(Insert(x, t));
  }

  /** A record with a date later than every date of a strictly descending
      list can go in front of it. */
  lemma ConsStrictlyDescending(h: SalaryRecord, r: seq<SalaryRecord>)
    requires HasDate(h) && StrictlyDescendingDates(r)
    requires forall y :: y in r ==> Less(y.rawDate.value, h.rawDate.value)
    ensures StrictlyDescendingDates([h] + r)
  {
    var c := [h] + r;
    forall i, j | 0 <= i < j < |c| ensures Less(c[j].rawDate.value, c[i].rawDate.value) {
      assert c[j] == r[j - 1];
      if i > 0 {
        assert c[i] == r[i - 1];
      }
    }
  }

  /** When moreover the dates are pairwise distinct, the order is strictly
      descending. */
  lemma {:induction false} SortStrictlyDescending(s: seq<SalaryRecord>)
    requires forall k :: 0 <= k < |s| ==> HasDate(s[k])
    requires forall i, j :: 0 <= i < j < |s| ==> s[i].rawDate != s[j].rawDate
    ensures StrictlyDescendingDates(SortByDate(s))
  {
    if s != [] {
      var p := s[..|s| - 1];
      var x := s[|s| - 1];
      SortStrictlyDescending(p);
      SortPermutation(p);
      forall y | y in SortByDate(p) ensures y.rawDate != x.rawDate {
        assert y in multiset(p);
      }
      InsertStrictlyDescending(x, SortByDate(p));
    }
  }

  // ---------------------------------------------------------------------
  // Ledger sheets

  /** The amount cell is there, or there is no amount column at all. */
  predicate HasAmountCell(row: Row, amountIndex: int) {
    amountIndex == -1 || 0 <= amountIndex < |row|
  }

  /** The record built from a matching row, before the amount filter. */
  function Entry(header: Row, row: Row, amountIndex: int, nameIndex: int, dateIndex: int): LedgerRecord
    requires HasAmountCell(row, amountIndex)
  {
    var amountText := if amountIndex != -1 then row[amountIndex] else "0";
    var name := if nameIndex != -1 then Cell(row, nameIndex)
      else Some(CellOr(header, amountIndex, "Record"));
    var rawDate := if dateIndex != -1 then Cell(row, dateIndex) else None;
    var date := if rawDate.Some? && rawDate.value != "" then Some(Split(rawDate.value, ' ')[0]) else rawDate;
    LedgerRecord(name, ParseAmount(amountText), date)
  }

  /** A record's fields: the name cell when there is a name column, else the
      amount column's non-empty header, else "Record"; no date without a
      date column, otherwise the date cell up to its first space; the amount
      read from the amount cell, or zero without an amount column. */
  lemma EntryFields(header: Row, row: Row, amountIndex: int, nameIndex: int, dateIndex: int)
    requires HasAmountCell(row, amountIndex)
    ensures var e := Entry(header, row, amountIndex, nameIndex, dateIndex);
      && (nameIndex != -1 ==> e.name == Cell(row, nameIndex))
      && (nameIndex == -1 ==>
            e.name.Some? && (e.name.value == "Record" || (0 <= amountIndex < |header| && e.name.value == header[amountIndex] != "")))
      && (nameIndex == -1 && 0 <= amountIndex < |header| && header[amountIndex] != "" ==> e.name == Some(header[amountIndex]))
      && (dateIndex == -1 ==> e.date.None?)
      && (dateIndex != -1 && 0 <= dateIndex < |row| ==> e.date.Some?)
      && (e.date.Some? ==>
            && 0 <= dateIndex < |row| && e.date.value <= row[dateIndex] && ' ' !in e.date.value
            && (|e.date.value| < |row[dateIndex]| ==> row[dateIndex][|e.date.value|] == ' '))
      && (amountIndex != -1 ==> e.amount == ParseAmount(row[amountIndex]))
      && (amountIndex == -1 ==> e.amount == Zero)
  {
    if dateIndex != -1 && 0 <= dateIndex < |row| && row[dateIndex] != "" {
      SplitHead(row[dateIndex], ' ');
    }
    if amountIndex == -1 {
      ParseAmountText(Zero);
      assert AmountText(Zero) == "0";
    }
  }

  /** The records of the matching rows, before the amount filter. */
  function Entries(header: Row, m: seq<Row>, amountIndex: int, nameIndex: int, dateIndex: int): (es: seq<LedgerRecord>)
    requires forall k :: 0 <= k < |m| ==> HasAmountCell(m[k], amountIndex)
    ensures |es| == |m|
    ensures forall k :: 0 <= k < |es| ==> Canonical(es[k].amount)
    ensures forall k :: 0 <= k < |es| && es[k].date.Some? ==> ' ' !in es[k].date.value
  {
    seq(|m|, k requires 0 <= k < |m| => Entry(header, m[k], amountIndex, nameIndex, dateIndex))
  }

  /** `parseGenericSheet` over the parsed rows of a ledger sheet; `Err` is
      the `TypeError` of `.replace` on the missing amount cell of a short
      matching row. */
  function LedgerRecords(rows: seq<Row>, id: string): Result<seq<LedgerRecord>, FetchError> {
    if |rows| < 2 then Ok([])
    else
      var header := rows[0];
      var idIndex := FindColumn(header, IdHeader);
      var amountIndex := AmountColumn(header);
      var nameIndex := FindIndex(header, NameHeaders);
      var dateIndex := FindIndex(header, DateHeaders);
      if idIndex == -1 then Ok([])
      else
        var m := MatchingRows(rows[1..], idIndex, id);
        if exists k :: 0 <= k < |m| && !HasAmountCell(m[k], amountIndex) then Err(MalformedRow)
        else Ok(PositiveRecords(Entries(header, m, amountIndex, nameIndex, dateIndex)))
  }

  /** `records.filter(r => r.amount > 0)`: the records, in order, whose
      amount is positive. */
  function PositiveRecords(es: seq<LedgerRecord>): (r: seq<LedgerRecord>)
    requires forall k :: 0 <= k < |es| ==> Canonical(es[k].amount)
    ensures |r| <= |es| && Subsequence(r, es)
    ensures forall x :: x in r <==> x in es && IsPositive(x.amount)
    ensures forall x :: multiset(r)[x] == if IsPositive(x.amount) then multiset(es)[x] else 0
    ensures forall k :: 0 <= k < |r| ==> Canonical(r[k].amount) && Value(r[k].amount) > 0.0
  {
    var q := (e: LedgerRecord) => IsPositive(e.amount);
    var r := Filter(es, q);
    FilterSubsequence(es, q);
    forall x ensures x in r <==> x in es && q(x) {
      FilterMember(es, q, x);
    }
    forall x ensures multiset(r)[x] == if q(x) then multiset(es)[x] else 0 {
      FilterMultiplicity(es, q, x);
    }
    forall k | 0 <= k < |r| ensures Canonical(r[k].amount) && Value(r[k].amount) > 0.0 {
      assert r[k] in es;
      PositiveValue(r[k].amount);
    }
    r
  }

  /** `parseGenericSheet(csv)`. */
  function ParseGenericSheet(csv: string, id: string): Result<seq<LedgerRecord>, FetchError> {
    LedgerRecords(ParseCsv(csv), id)
  }

  /** Every ledger record has a positive amount; there are no more records
      than data rows; dates hold no space; the sheet fails only on a
      matching row that lacks its amount cell. */
  lemma GenericSheetSpec(rows: seq<Row>, id: string)
    ensures var r := LedgerRecords(rows, id);
      r.Ok? ==> forall k :: 0 <= k < |r.value| ==>
        IsPositive(r.value[k].amount) && Canonical(r.value[k].amount) && Value(r.value[k].amount) > 0.0
    ensures var r := LedgerRecords(rows, id);
      r.Ok? ==> |r.value| <= |rows|
    ensures var r := LedgerRecords(rows, id);
      r.Ok? ==> forall k :: 0 <= k < |r.value| && r.value[k].date.Some? ==> ' ' !in r.value[k].date.value
    ensures LedgerRecords(rows, id).Err? ==>
      && |rows| >= 2 && FindColumn(rows[0], IdHeader) != -1
      && (exists row :: row in rows[1..] && Cell(row, FindColumn(rows[0], IdHeader)) == Some(id)
           && !HasAmountCell(row, AmountColumn(rows[0])))
  {
    var r := LedgerRecords(rows, id);
    if |rows| >= 2 && FindColumn(rows[0], IdHeader) != -1 {
      if r.Err? {
        LedgerRecordsErr(rows, id);
      } else {
        var header := rows[0];
        var m := MatchingRows(rows[1..], FindColumn(header, IdHeader), id);
        LedgerRecordsOk(rows, id);
        PositiveRecordsDates(Entries(header, m, AmountColumn(header), FindIndex(header, NameHeaders), FindIndex(header, DateHeaders)));
      }
    }
  }

  /** A ledger sheet fails only on a matching row without its amount cell. */
  lemma LedgerRecordsErr(rows: seq<Row>, id: string)
    requires LedgerRecords(rows, id).Err?
    ensures |rows| >= 2 && FindColumn(rows[0], IdHeader) != -1
    ensures exists row ::
      && row in rows[1..] && Cell(row, FindColumn(rows[0], IdHeader)) == Some(id)
      && !HasAmountCell(row, AmountColumn(rows[0]))
  {
    var header := rows[0];
    var idIndex := FindColumn(header, IdHeader);
    var m := MatchingRows(rows[1..], idIndex, id);
    var k :| 0 <= k < |m| && !HasAmountCell(m[k], AmountColumn(header));
    assert m[k] in m;
  }

  /** The positive records keep the space-free dates of the candidates. */
  lemma PositiveRecordsDates(es: seq<LedgerRecord>)
    requires forall k :: 0 <= k < |es| ==> Canonical(es[k].amount)
    requires forall k :: 0 <= k < |es| && es[k].date.Some? ==> ' ' !in es[k].date.value
    ensures var r := PositiveRecords(es);
      forall k :: 0 <= k < |r| && r[k].date.Some? ==> ' ' !in r[k].date.value
  {
    var r := PositiveRecords(es);
    forall k | 0 <= k < |r| && r[k].date.Some? ensures ' ' !in r[k].date.value {
      assert r[k] in es;
    }
  }

  /** The records are exactly the positive-amount records of the matching
      rows: one candidate record per matching row, in row order, of which
      the filter keeps every positive one, as often as it occurs, in that
      order; a record is present exactly when some matching row yields it
      with a positive amount. */
  lemma GenericSheetOrder(rows: seq<Row>, id: string)
    requires |rows| >= 2 && FindColumn(rows[0], IdHeader) != -1
    requires LedgerRecords(rows, id).Ok?
    ensures var header := rows[0];
      var m := MatchingRows(rows[1..], FindColumn(header, IdHeader), id);
      var amountIndex, nameIndex, dateIndex := AmountColumn(header), FindIndex(header, NameHeaders), FindIndex(header, DateHeaders);
      var r := LedgerRecords(rows, id).value;
      && (forall k :: 0 <= k < |m| ==> HasAmountCell(m[k], amountIndex))
      && var es := Entries(header, m, amountIndex, nameIndex, dateIndex);
      && (forall k :: 0 <= k < |es| ==> es[k] == Entry(header, m[k], amountIndex, nameIndex, dateIndex))
      && r == PositiveRecords(es)
      && |r| <= |m| && Subsequence(r, es)
      && (forall x :: multiset(r)[x] == if IsPositive(x.amount) then multiset(es)[x] else 0)
      && forall x :: x in r <==>
           && IsPositive(x.amount)
           && exists row :: row in m && x == Entry(header, row, amountIndex, nameIndex, dateIndex)
  {
    var header := rows[0];
    LedgerRecordsOk(rows, id);
    PositiveEntries(header, MatchingRows(rows[1..], FindColumn(header, IdHeader), id),
      AmountColumn(header), FindIndex(header, NameHeaders), FindIndex(header, DateHeaders));
  }

  /** A ledger sheet that does not fail yields the positive records of its
      matching rows' candidates. */
  lemma LedgerRecordsOk(rows: seq<Row>, id: string)
    requires |rows| >= 2 && FindColumn(rows[0], IdHeader) != -1
    requires LedgerRecords(rows, id).Ok?
    ensures var header := rows[0];
      var m := MatchingRows(rows[1..], FindColumn(header, IdHeader), id);
      && (forall k :: 0 <= k < |m| ==> HasAmountCell(m[k], AmountColumn(header)))
      && LedgerRecords(rows, id).value
         == PositiveRecords(Entries(header, m, AmountColumn(header), FindIndex(header, NameHeaders), FindIndex(header, DateHeaders)))
  {
  }

  /** The positive records of the matching rows' candidates are those
      candidates with a positive amount, each as often as it occurs. */
  lemma PositiveEntries(header: Row, m: seq<Row>, amountIndex: int, nameIndex: int, dateIndex: int)
    requires forall k :: 0 <= k < |m| ==> HasAmountCell(m[k], amountIndex)
    ensures var es := Entries(header, m, amountIndex, nameIndex, dateIndex);
      var r := PositiveRecords(es);
      && |r| <= |m|
      && forall x :: x in r <==>
           && IsPositive(x.amount)
           && exists row :: row in m && x == Entry(header, row, amountIndex, nameIndex, dateIndex)
  {
    EntriesOf(header, m, amountIndex, nameIndex, dateIndex);
  }

  /** The records before the filter are those of the matching rows. */
  lemma EntriesOf(header: Row, m: seq<Row>, amountIndex: int, nameIndex: int, dateIndex: int)
    requires forall k :: 0 <= k < |m| ==> HasAmountCell(m[k], amountIndex)
    ensures forall x :: x in Entries(header, m, amountIndex, nameIndex, dateIndex) <==>
      exists row :: row in m && x == Entry(header, row, amountIndex, nameIndex, dateIndex)
  {
    var es := Entries(header, m, amountIndex, nameIndex, dateIndex);
    forall x | x in es ensures exists row :: row in m && x == Entry(header, row, amountIndex, nameIndex, dateIndex) {
      var k :| 0 <= k < |es| && es[k] == x;
      assert m[k] in m;
    }
    forall row | row in m ensures Entry(header, row, amountIndex, nameIndex, dateIndex) in es {
      var k :| 0 <= k < |m| && m[k] == row;
      assert es[k] == Entry(header, row, amountIndex, nameIndex, dateIndex);
    }
  }

  // ---------------------------------------------------------------------
  // The whole snapshot

  /** The first failed request, in request order; a rejected request wins
      over a failed status because `Promise.all` rejects first. */
  function RequestFailure(rs: seq<Response>): Option<FetchError> {
    if exists k :: 0 <= k < |rs| && rs[k].Unreachable? then Some(NetworkError)
    else FirstBadStatus(rs)
  }

  function FirstBadStatus(rs: seq<Response>): Option<FetchError> {
    if rs == [] then None
    else if rs[0].Response? && !rs[0].ok then Some(ServerError(rs[0].status))
    else FirstBadStatus(rs[1..])
  }

  function Body(r: Response): string {
    if r.Response? then r.body else ""
  }

  /** `fetchEmployeeData(id)` after the six requests have settled. */
  function FetchEmployeeData(responses: Responses, id: string, locale: Locale): (r: Result<Employee, FetchError>)
    ensures r.Ok? ==> r.value.profile.id == id
    ensures r.Ok? ==>
      multiset(r.value.salaryHistory)
      == multiset(ParseSalarySheet(Body(responses.currentSalary), id, locale)
                  + ParseSalarySheet(Body(responses.archiveSalary), id, locale))
  {
    var all := [responses.admin, responses.currentSalary, responses.archiveSalary,
      responses.bonus, responses.dispatches, responses.extraHours];
    match RequestFailure(all)
    case Some(e) => Err(e)
    case None =>
      var adminRows := ParseCsv(Body(responses.admin));
      LookupProfileSpec(adminRows, id, locale);
      match LookupProfile(adminRows, id, locale)
      case Err(e) => Err(e)
      case Ok(profile) =>
        var history := ParseSalarySheet(Body(responses.currentSalary), id, locale)
          + ParseSalarySheet(Body(responses.archiveSalary), id, locale);
        SortPermutation(history);
        match ParseGenericSheet(Body(responses.bonus), id)
        case Err(e) => Err(e)
        case Ok(bonuses) =>
          match ParseGenericSheet(Body(responses.dispatches), id)
          case Err(e) => Err(e)
          case Ok(dispatches) =>
            match ParseGenericSheet(Body(responses.extraHours), id)
            case Err(e) => Err(e)
            case Ok(extraHours) =>
              Ok(Employee(profile, SortByDate(history), bonuses, dispatches, extraHours))
  }

  /** The snapshot fails with the first failed request when there is one,
      and otherwise with the admin lookup's error when the lookup fails. */
  lemma FetchFailureOrder(responses: Responses, id: string, locale: Locale)
    ensures var all := [responses.admin, responses.currentSalary, responses.archiveSalary,
        responses.bonus, responses.dispatches, responses.extraHours];
      RequestFailure(all).Some? ==> FetchEmployeeData(responses, id, locale) == Err(RequestFailure(all).value)
    ensures var all := [responses.admin, responses.currentSalary, responses.archiveSalary,
        responses.bonus, responses.dispatches, responses.extraHours];
      var lookup := LookupProfile(ParseCsv(Body(responses.admin)), id, locale);
      RequestFailure(all).None? && lookup.Err? ==> FetchEmployeeData(responses, id, locale) == Err(lookup.error)
  {
  }

  /** On success each ledger list is what its sheet parses to and the
      history is the two salary sheets in date order. */
  lemma FetchContents(responses: Responses, id: string, locale: Locale)
    ensures var r := FetchEmployeeData(responses, id, locale);
      r.Ok? ==>
        && ParseGenericSheet(Body(responses.bonus), id) == Ok(r.value.bonuses)
        && ParseGenericSheet(Body(responses.dispatches), id) == Ok(r.value.dispatches)
        && ParseGenericSheet(Body(responses.extraHours), id) == Ok(r.value.extraHours)
        && r.value.salaryHistory == SortByDate(ParseSalarySheet(Body(responses.currentSalary), id, locale)
             + ParseSalarySheet(Body(responses.archiveSalary), id, locale))
  {
    var r := FetchEmployeeData(responses, id, locale);
    if r.Ok? {
      var b := ParseGenericSheet(Body(responses.bonus), id);
      var d := ParseGenericSheet(Body(responses.dispatches), id);
      var x := ParseGenericSheet(Body(responses.extraHours), id);
      assert b.Ok? && d.Ok? && x.Ok?;
      var lookup := LookupProfile(ParseCsv(Body(responses.admin)), id, locale);
      var history := ParseSalarySheet(Body(responses.currentSalary), id, locale)
        + ParseSalarySheet(Body(responses.archiveSalary), id, locale);
      assert r == Ok(Employee(lookup.value, SortByDate(history), b.value, d.value, x.value));
    }
  }

  /** A malformed row is reported only when one of the ledger sheets has
      one: neither a request nor the admin lookup fails that way. */
  lemma FetchMalformed(responses: Responses, id: string, locale: Locale)
    ensures FetchEmployeeData(responses, id, locale) == Err(MalformedRow) ==>
      || ParseGenericSheet(Body(responses.bonus), id).Err?
      || ParseGenericSheet(Body(responses.dispatches), id).Err?
      || ParseGenericSheet(Body(responses.extraHours), id).Err?
  {
    var all := [responses.admin, responses.currentSalary, responses.archiveSalary,
      responses.bonus, responses.dispatches, responses.extraHours];
    RequestFailureKind(all);
    LookupProfileSpec(ParseCsv(Body(responses.admin)), id, locale);
  }

  /** A failed request is reported as a network or a server error. */
  lemma {:induction false} RequestFailureKind(rs: seq<Response>)
    ensures RequestFailure(rs).Some? ==> RequestFailure(rs).value.NetworkError? || RequestFailure(rs).value.ServerError?
  {
    if !(exists k :: 0 <= k < |rs| && rs[k].Unreachable?) && rs != [] && !(rs[0].Response? && !rs[0].ok) {
      assert !(exists k :: 0 <= k < |rs[1..]| && rs[1..][k].Unreachable?) by {
        forall k | 0 <= k < |rs[1..]| ensures !rs[1..][k].Unreachable? {
          assert rs[1..][k] == rs[k + 1];
        }
      }
      RequestFailureKind(rs[1..]);
    }
  }
}

/**
 * What happens to scan results once the probes are done (utils.py, and the GUI's
 * `process_results`): the result dictionaries, the summary counts of `create_summary`, the
 * report line `save_results_txt` writes per result, and the sort by port.
 */
module Results {
  import opened Wrappers
  import opened Text
  import Scanner
  import Display
  import PortSpec

  /** The `"time_ms"` entry of a result dictionary: missing, `None`, or a number of milliseconds. */
  datatype TimeField = Absent | Null | Millis(ms: int)

  /** A result dictionary with its `"port"`, its `"status"` (`None` when the key is missing) and its `"time_ms"`. */
  datatype Row = Row(port: int, status: Option<string>, timeMs: TimeField)

  /** The dictionary the GUI builds from a probe tuple: every key present, `time_ms` possibly `None`. */
  function RowOf(r: Scanner.ProbeResult): (row: Row)
    ensures row.port == r.port && row.status == Some(r.status)
    ensures row.timeMs == Null <==> r.timeMs.None?
    ensures r.timeMs.Some? ==> row.timeMs == Millis(r.timeMs.value)
  {
    Row(r.port, Some(r.status), if r.timeMs.Some? then Millis(r.timeMs.value) else Null)
  }

  /** The dictionaries for a list of probe tuples, in the same order. */
  function RowsOf(results: seq<Scanner.ProbeResult>): (rows: seq<Row>)
    ensures |rows| == |results|
    ensures forall i :: 0 <= i < |results| ==> rows[i] == RowOf(results[i])
  {
    seq(|results|, i requires 0 <= i < |results| => RowOf(results[i]))
  }

  // ---------------------------------------------------------------------------
  // create_summary
  // ---------------------------------------------------------------------------

  const TotalKey := "total"

  /** The four statuses a probe reports. */
  const StatusKeys: set<string> :=
    {Scanner.StatusOpen, Scanner.StatusClosed, Scanner.StatusTimeout, Scanner.StatusError}

  /** The keys of a summary. */
  const SummaryKeys: set<string> := StatusKeys + {TotalKey}

  /** `result.get("status", "error")`: a missing status reads as `"error"`. */
  function StatusOf(row: Row): string {
    if row.status.Some? then row.status.value else Scanner.StatusError
  }

  /** The number of rows whose status reads as `status`. */
  function Count(rows: seq<Row>, status: string): nat {
    if rows == [] then 0 else (if StatusOf(rows[0]) == status then 1 else 0) + Count(rows[1..], status)
  }

  /** The number of rows whose status is none of the four. */
  function Unrecognised(rows: seq<Row>): nat {
    if rows == [] then 0 else (if StatusOf(rows[0]) in StatusKeys then 0 else 1) + Unrecognised(rows[1..])
  }

  /** The summary before any result is counted: the total, and zero for each status. */
  function InitialSummary(total: int): (summary: map<string, int>)
    ensures summary.Keys == SummaryKeys
  {
    map[TotalKey := total, Scanner.StatusOpen := 0, Scanner.StatusClosed := 0,
        Scanner.StatusTimeout := 0, Scanner.StatusError := 0]
  }

  /** The initial summary holds the total and a zero for each status; `"total"` is not a status. */
  lemma InitialSummaryValues(total: int)
    ensures InitialSummary(total)[TotalKey] == total
    ensures forall k :: k in StatusKeys ==> InitialSummary(total)[k] == 0
    ensures TotalKey !in StatusKeys
  {
  }

  /** Count one result: bump its status's entry when the status is one of the `counted` keys present. */
  function Bump(summary: map<string, int>, status: string, counted: set<string>): map<string, int> {
    if status in counted && status in summary then summary[status := summary[status] + 1] else summary
  }

  /** Count the rows one after another, as the loop of `create_summary` does. */
  function Tally(summary: map<string, int>, rows: seq<Row>, counted: set<string>): map<string, int> {
    if rows == [] then summary
    else Bump(Tally(summary, rows[..|rows| - 1], counted), StatusOf(rows[|rows| - 1]), counted)
  }

  /** Tallying never adds or removes a key. */
  lemma {:induction false} TallyKeys(summary: map<string, int>, rows: seq<Row>, counted: set<string>)
    ensures Tally(summary, rows, counted).Keys == summary.Keys
    decreases |rows|
  {
    if rows != [] {
      TallyKeys(summary, rows[..|rows| - 1], counted);
    }
  }

  /**
   * `create_summary(results)` as written: a status is counted whenever it is a key of the
   * summary, and `"total"` is one of those keys.
   */
  function SummaryAsWritten(rows: seq<Row>): (summary: map<string, int>)
    ensures summary.Keys == SummaryKeys
  {
    var initial := InitialSummary(|rows|);
    TallyKeys(initial, rows, initial.Keys);
    Tally(initial, rows, initial.Keys)
  }

  /** `create_summary(results)`, the loop that increments the counters one result at a time. */
  method CreateSummary(results: seq<Row>) returns (summary: map<string, int>)
    ensures summary == SummaryAsWritten(results)
  {
    var initial := InitialSummary(|results|);
    summary := initial;
    for i := 0 to |results|
      invariant summary == Tally(initial, results[..i], initial.Keys)
      invariant summary.Keys == initial.Keys
    {
      var status := StatusOf(results[i]);
      if status in summary {
        summary := summary[status := summary[status] + 1];
      }
      assert results[..i + 1][..i] == results[..i];
    }
    assert results[..|results|] == results;
  }

  /** Counts split at any point. */
  lemma {:induction false} CountAppend(a: seq<Row>, b: seq<Row>, status: string)
    ensures Count(a + b, status) == Count(a, status) + Count(b, status)
    decreases |a|
  {
    if a == [] {
      assert a + b == b;
    } else {
      CountAppend(a[1..], b, status);
      assert (a + b)[1..] == a[1..] + b;
    }
  }

  /** Removing the last row removes its count. */
  lemma CountLast(rows: seq<Row>, status: string)
    requires rows != []
    ensures Count(rows, status) == Count(rows[..|rows| - 1], status) + (if StatusOf(rows[|rows| - 1]) == status then 1 else 0)
  {
    var n := |rows| - 1;
    CountAppend(rows[..n], [rows[n]], status);
    assert rows[..n] + [rows[n]] == rows;
  }

  /** Tallying adds to a counted key the number of rows with that status, and leaves other keys alone. */
  lemma {:induction false} TallyCount(summary: map<string, int>, rows: seq<Row>, counted: set<string>, k: string)
    requires k in summary
    ensures k in Tally(summary, rows, counted)
    ensures Tally(summary, rows, counted)[k] == summary[k] + (if k in counted then Count(rows, k) else 0)
    decreases |rows|
  {
    if rows != [] {
      var n := |rows| - 1;
      TallyCount(summary, rows[..n], counted, k);
      CountLast(rows, k);
    }
  }

  /**
   * What `create_summary` as written computes: the four counts are exact, but a result whose
   * status is `"total"` also adds to the total.
   */
  lemma SummaryAsWrittenCounts(rows: seq<Row>)
    ensures SummaryAsWritten(rows).Keys == SummaryKeys
    ensures SummaryAsWritten(rows)[TotalKey] == |rows| + Count(rows, TotalKey)
    ensures forall k :: k in StatusKeys ==> SummaryAsWritten(rows)[k] == Count(rows, k)
  {
    InitialSummaryValues(|rows|);
    AsWrittenKey(rows, TotalKey);
    forall k | k in StatusKeys
      ensures SummaryAsWritten(rows)[k] == Count(rows, k)
    {
      AsWrittenKey(rows, k);
    }
  }

  /** Each key of the summary as written ends at its initial value plus the rows with that status. */
  lemma AsWrittenKey(rows: seq<Row>, k: string)
    requires k in SummaryKeys
    ensures SummaryAsWritten(rows)[k] == InitialSummary(|rows|)[k] + Count(rows, k)
  {
    var initial := InitialSummary(|rows|);
    TallyCount(initial, rows, initial.Keys, k);
  }

  /** One row with status `"total"` makes the summary report two results. */
  lemma TotalStatusCounterexample()
    ensures var rows := [Row(80, Some(TotalKey), Absent)];
      |rows| == 1 && SummaryAsWritten(rows)[TotalKey] == 2 && Summarize(rows)[TotalKey] == 1
  {
    var rows := [Row(80, Some(TotalKey), Absent)];
    SummaryAsWrittenCounts(rows);
    SummarizeCounts(rows);
    assert rows[1..] == [];
  }

  /** `create_summary` as evidently intended: only the four statuses are counted. */
  function Summarize(rows: seq<Row>): (summary: map<string, int>)
    ensures summary.Keys == SummaryKeys
  {
    TallyKeys(InitialSummary(|rows|), rows, StatusKeys);
    Tally(InitialSummary(|rows|), rows, StatusKeys)
  }

  /** The intended summary: the total is the number of results, and each status count is exact. */
  lemma SummarizeCounts(rows: seq<Row>)
    ensures Summarize(rows).Keys == SummaryKeys
    ensures Summarize(rows)[TotalKey] == |rows|
    ensures forall k :: k in StatusKeys ==> Summarize(rows)[k] == Count(rows, k)
  {
    var initial := InitialSummary(|rows|);
    InitialSummaryValues(|rows|);
    TallyCount(initial, rows, StatusKeys, TotalKey);
    forall k | k in StatusKeys
      ensures Summarize(rows)[k] == Count(rows, k)
    {
      TallyCount(initial, rows, StatusKeys, k);
    }
  }

  /** A result without a status is counted as an error. */
  lemma MissingStatusIsError(rows: seq<Row>, port: int, time: TimeField)
    ensures var more := rows + [Row(port, None, time)];
      Summarize(more)[Scanner.StatusError] == Summarize(rows)[Scanner.StatusError] + 1
  {
    var more := rows + [Row(port, None, time)];
    SummarizeCounts(rows);
    SummarizeCounts(more);
    CountAppend(rows, [Row(port, None, time)], Scanner.StatusError);
    assert [Row(port, None, time)][1..] == [];
  }

  /** Every row reads as one of the four statuses or as an unrecognised one. */
  lemma {:induction false} StatusCountsSum(rows: seq<Row>)
    ensures Count(rows, Scanner.StatusOpen) + Count(rows, Scanner.StatusClosed)
      + Count(rows, Scanner.StatusTimeout) + Count(rows, Scanner.StatusError) + Unrecognised(rows) == |rows|
    ensures Unrecognised(rows) == 0 <==> forall i :: 0 <= i < |rows| ==> StatusOf(rows[i]) in StatusKeys
    decreases |rows|
  {
    if rows != [] {
      StatusCountsSum(rows[1..]);
      assert forall i :: 1 <= i < |rows| ==> rows[i] == rows[1..][i - 1];
    }
  }

  /**
   * The four counts of the intended summary add up to at most the total, and to exactly the
   * total when every status is one of the four.
   */
  lemma SummarizeBounds(rows: seq<Row>)
    ensures var s := Summarize(rows);
      s[Scanner.StatusOpen] + s[Scanner.StatusClosed] + s[Scanner.StatusTimeout] + s[Scanner.StatusError] <= s[TotalKey]
    ensures var s := Summarize(rows);
      (s[Scanner.StatusOpen] + s[Scanner.StatusClosed] + s[Scanner.StatusTimeout] + s[Scanner.StatusError] == s[TotalKey])
      <==> forall i :: 0 <= i < |rows| ==> StatusOf(rows[i]) in StatusKeys
  {
    SummarizeCounts(rows);
    StatusCountsSum(rows);
  }

  /** No row reads as `status`: its count is zero. */
  lemma {:induction false} CountAbsent(rows: seq<Row>, status: string)
    requires forall i :: 0 <= i < |rows| ==> StatusOf(rows[i]) != status
    ensures Count(rows, status) == 0
    decreases |rows|
  {
    if rows != [] {
      assert forall i :: 1 <= i < |rows| ==> rows[i] == rows[1..][i - 1];
      CountAbsent(rows[1..], status);
    }
  }

  /** As long as no status is `"total"`, the summary as written is the intended one. */
  lemma AsWrittenIsIntendedWithoutTotalStatus(rows: seq<Row>)
    requires forall i :: 0 <= i < |rows| ==> StatusOf(rows[i]) != TotalKey
    ensures SummaryAsWritten(rows) == Summarize(rows)
  {
    SummaryAsWrittenCounts(rows);
    SummarizeCounts(rows);
    CountAbsent(rows, TotalKey);
  }

  // ---------------------------------------------------------------------------
  // The sort by port done by `process_results`
  // ---------------------------------------------------------------------------

  predicate SortedByPort(rows: seq<Row>) {
    forall i, j :: 0 <= i < j < |rows| ==> rows[i].port <= rows[j].port
  }

  /** Put `row` in front of the first row whose port is not smaller. */
  function Insert(row: Row, sorted: seq<Row>): seq<Row> {
    if sorted == [] || row.port <= sorted[0].port then [row] + sorted
    else [sorted[0]] + Insert(row, sorted[1..])
  }

  /** `rows.sort(key=lambda x: x["port"])`: a stable sort by port, as an insertion sort. */
  function SortByPort(rows: seq<Row>): seq<Row> {
    if rows == [] then [] else Insert(rows[0], SortByPort(rows[1..]))
  }

  /** Inserting adds the row and nothing else. */
  lemma {:induction false} InsertElements(row: Row, sorted: seq<Row>)
    ensures multiset(Insert(row, sorted)) == multiset(sorted) + multiset{row}
    ensures |Insert(row, sorted)| == |sorted| + 1
    decreases |sorted|
  {
    if !(sorted == [] || row.port <= sorted[0].port) {
      InsertElements(row, sorted[1..]);
      assert sorted == [sorted[0]] + sorted[1..];
    }
  }

  /** Inserting adds the row's status to the counts. */
  lemma {:induction false} InsertCount(row: Row, sorted: seq<Row>, status: string)
    ensures Count(Insert(row, sorted), status) == Count(sorted, status) + Count([row], status)
    decreases |sorted|
  {
    if sorted == [] || row.port <= sorted[0].port {
      CountAppend([row], sorted, status);
    } else {
      InsertCount(row, sorted[1..], status);
      assert [row][1..] == [];
    }
  }

  /** Inserting into rows sorted by port keeps them sorted. */
  lemma {:induction false} InsertSorted(row: Row, sorted: seq<Row>)
    requires SortedByPort(sorted)
    ensures SortedByPort(Insert(row, sorted))
    decreases |sorted|
  {
    if !(sorted == [] || row.port <= sorted[0].port) {
      var rest := sorted[1..];
      InsertSorted(row, rest);
      InsertElements(row, rest);
      var tail := Insert(row, rest);
      forall i | 0 <= i < |tail|
        ensures sorted[0].port <= tail[i].port
      {
        assert tail[i] in multiset(tail);
        if tail[i] != row {
          assert tail[i] in multiset(rest);
          var j :| 0 <= j < |rest| && rest[j] == tail[i];
          assert rest[j] == sorted[j + 1];
        }
      }
    }
  }

  /** Sorting by port orders the rows. */
  lemma {:induction false} SortByPortSorted(rows: seq<Row>)
    ensures SortedByPort(SortByPort(rows))
    decreases |rows|
  {
    if rows != [] {
      SortByPortSorted(rows[1..]);
      InsertSorted(rows[0], SortByPort(rows[1..]));
    }
  }

  /** Sorting by port only reorders the rows. */
  lemma {:induction false} SortByPortElements(rows: seq<Row>)
    ensures multiset(SortByPort(rows)) == multiset(rows)
    ensures |SortByPort(rows)| == |rows|
    decreases |rows|
  {
    if rows != [] {
      SortByPortElements(rows[1..]);
      InsertElements(rows[0], SortByPort(rows[1..]));
      assert rows == [rows[0]] + rows[1..];
    }
  }

  /** Sorting by port keeps every status count. */
  lemma {:induction false} SortByPortCount(rows: seq<Row>, status: string)
    ensures Count(SortByPort(rows), status) == Count(rows, status)
    decreases |rows|
  {
    if rows != [] {
      SortByPortCount(rows[1..], status);
      InsertCount(rows[0], SortByPort(rows[1..]), status);
      CountAppend([rows[0]], rows[1..], status);
      assert rows == [rows[0]] + rows[1..];
    }
  }

  /**
   * What the GUI keeps after a scan: the result dictionaries sorted by port, and the summary
   * `create_summary` makes of them.
   */
  function Aggregate(results: seq<Scanner.ProbeResult>): (seq<Row>, map<string, int>) {
    var rows := SortByPort(RowsOf(results));
    (rows, SummaryAsWritten(rows))
  }

  /**
   * For results whose statuses are the four a probe reports, the GUI's rows are the results
   * sorted by port, and its summary is the intended one: the total is the number of results and
   * each status count is the number of results with that status.
   */
  lemma AggregateSpec(results: seq<Scanner.ProbeResult>)
    requires forall i :: 0 <= i < |results| ==> results[i].status in StatusKeys
    ensures var (rows, summary) := Aggregate(results);
      && SortedByPort(rows)
      && multiset(rows) == multiset(RowsOf(results))
      && summary == Summarize(rows)
      && summary[TotalKey] == |results|
      && forall k :: k in StatusKeys ==> summary[k] == Count(RowsOf(results), k)
  {
    var unsorted := RowsOf(results);
    var rows := SortByPort(unsorted);
    SortByPortSorted(unsorted);
    SortByPortElements(unsorted);
    forall i | 0 <= i < |rows|
      ensures StatusOf(rows[i]) != TotalKey
    {
      assert rows[i] in multiset(unsorted);
      var j :| 0 <= j < |unsorted| && unsorted[j] == rows[i];
      assert StatusOf(unsorted[j]) == results[j].status;
    }
    AsWrittenIsIntendedWithoutTotalStatus(rows);
    SummarizeCounts(rows);
    forall k | k in StatusKeys
      ensures Summarize(rows)[k] == Count(unsorted, k)
    {
      SortByPortCount(unsorted, k);
    }
  }

  /** Every entry `scan_ports` returns has one of the four statuses. */
  lemma ScanEntriesRecognised(port: int, fate: Scanner.TaskFate, hasCallback: bool)
    ensures Scanner.Entry(port, fate, hasCallback).status in StatusKeys
  {
  }

  // ---------------------------------------------------------------------------
  // The report line of save_results_txt
  // ---------------------------------------------------------------------------

  const LinePrefix := "Port "

  /** `f"Port {port:5d} ({description:15s}): {status:8s}"`. */
  function LineHead(port: int, description: string, status: string): (head: string)
    ensures |head| >= |LinePrefix| + 5 && head[..|LinePrefix|] == LinePrefix
    ensures head[|LinePrefix|..|LinePrefix| + 5] == PadLeft(IntToDecimal(port), 5) || |IntToDecimal(port)| > 5
  {
    LinePrefix + PadLeft(IntToDecimal(port), 5) + " (" + PadRight(description, 15) + "): " + PadRight(status, 8)
  }

  /**
   * The time written after the head as the code stands: nothing when the `time_ms` key is
   * missing (`get` returns `'N/A'`), `" (Nonems)"` when it is `None`, else the milliseconds.
   */
  function TimeSuffixAsWritten(time: TimeField): string {
    match time
    case Absent => ""
    case Null => " (Nonems)"
    case Millis(ms) => " (" + IntToDecimal(ms) + "ms)"
  }

  /** The time as evidently intended: written only when there is a number of milliseconds. */
  function TimeSuffix(time: TimeField): string {
    if time.Millis? then " (" + IntToDecimal(time.ms) + "ms)" else ""
  }

  /** One line of `save_results_txt` as written; `None` for the `KeyError` of a missing status. */
  function FormatLineAsWritten(row: Row): Option<string> {
    if row.status.None? then None
    else Some(LineHead(row.port, Display.PortDescription(row.port), row.status.value) + TimeSuffixAsWritten(row.timeMs))
  }

  /** One line of `save_results_txt` as evidently intended. */
  function FormatLine(row: Row): Option<string> {
    if row.status.None? then None
    else Some(LineHead(row.port, Display.PortDescription(row.port), row.status.value) + TimeSuffix(row.timeMs))
  }

  /** A port up to 65535, the sentinel's 0 included, has at most five digits, none of them whitespace. */
  lemma PortDigits(port: int)
    requires 0 <= port <= PortSpec.MaxPort
    ensures var digits := IntToDecimal(port);
      1 <= |digits| <= 5 && !IsSpace(digits[0]) && !IsSpace(digits[|digits| - 1])
  {
    var digits := NatToDecimal(port);
    if port < 10000 {
      assert |NatToDecimal(port / 10)| <= 3;
    } else {
      assert |NatToDecimal(port / 100)| <= 3;
      assert |NatToDecimal(port / 10)| <= 4;
    }
    DecimalDigits(port);
    assert IsDigit(digits[0]) && IsDigit(digits[|digits| - 1]);
  }

  /**
   * The port column of a line holds the port, right-aligned, and reads back as it; this covers
   * every line of a report, the sentinel's port 0 included.
   */
  lemma LinePortReadsBack(port: int, description: string, status: string)
    requires 0 <= port <= PortSpec.MaxPort
    ensures var line := LineHead(port, description, status);
      |line| >= 10 && line[..5] == LinePrefix && ParseInt(line[5..10]) == Some(port)
  {
    var digits := IntToDecimal(port);
    PortDigits(port);
    PadLeftStrips(digits, 5);
    IntStripUnchanged(digits);
    ParseIntOfDecimal(port);
    var line := LineHead(port, description, status);
    assert line[5..10] == PadLeft(digits, 5);
  }

  /** A line ends in `)` exactly when a time is written, for any status not itself ending in `)`. */
  lemma LineEnding(port: int, description: string, status: string, time: TimeField)
    requires status != [] && status[|status| - 1] != ')'
    ensures var line := LineHead(port, description, status) + TimeSuffix(time);
      line[|line| - 1] == ')' <==> time.Millis?
  {
    var head := LineHead(port, description, status);
    var field := PadRight(status, 8);
    assert head[|head| - 1] == field[|field| - 1];
    PadRightEnd(status, 8);
  }

  /**
   * As written, the line for every probe that did not connect ends in `" (Nonems)"`: the GUI
   * always sets `time_ms`, to `None` when there is no time, and `None` is not `'N/A'`.
   */
  lemma UnconnectedProbeShowsNone(port: int, outcome: Scanner.ConnectOutcome)
    requires !outcome.Connected?
    ensures var line := FormatLineAsWritten(RowOf(Scanner.ScanPort(port, outcome))).value;
      |line| >= 9 && line[|line| - 9..] == " (Nonems)"
  {
  }

  /** As intended, a line shows a time exactly for the probes that connected. */
  lemma ProbeLineShowsTimeWhenOpen(port: int, outcome: Scanner.ConnectOutcome)
    ensures var line := FormatLine(RowOf(Scanner.ScanPort(port, outcome))).value;
      line[|line| - 1] == ')' <==> outcome.Connected?
  {
    var r := Scanner.ScanPort(port, outcome);
    LineEnding(port, Display.PortDescription(port), r.status, RowOf(r).timeMs);
  }

  /** The line of an open port ends in `" (<ms>ms)"`, and its digits read back as the measured time. */
  lemma OpenProbeLine(port: int, ms: int)
    ensures var digits := IntToDecimal(ms);
      && FormatLine(RowOf(Scanner.ScanPort(port, Scanner.Connected(ms)))) ==
           Some(LineHead(port, Display.PortDescription(port), Scanner.StatusOpen) + (" (" + digits + "ms)"))
      && ParseInt(digits) == Some(ms)
  {
    var row := RowOf(Scanner.ScanPort(port, Scanner.Connected(ms)));
    assert row == Row(port, Some(Scanner.StatusOpen), Millis(ms));
    ParseIntOfDecimal(ms);
  }
}

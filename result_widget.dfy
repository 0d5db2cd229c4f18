/** The logic of the result window: ranking statuses, filtering and sorting the report
    rows, counting them per status, and the entries of the status filter box. */
module ResultWidget {
  import opened Strings
  import opened Sequences
  import opened Results

  /** `STATUS_ORDER` */
  const StatusOrder: seq<string> := ["Error", "Replaced", "Created", "Unchanged", "Skipped"]

  /** The attribute behind each table column, in column order. */
  const Columns: seq<string> := ["path", "status", "reason", "template"]

  /** `rank(s)`: the position in the status order; unknown statuses come last. */
  function Rank(s: string): (r: nat)
    ensures r <= |StatusOrder|
    ensures r < |StatusOrder| ==> StatusOrder[r] == s
    ensures r == |StatusOrder| <==> s !in StatusOrder
  {
    if s == "Error" then 0
    else if s == "Replaced" then 1
    else if s == "Created" then 2
    else if s == "Unchanged" then 3
    else if s == "Skipped" then 4
    else 5
  }

  /** Error < Replaced < Created < Unchanged < Skipped < anything else. */
  lemma RankOrder(other: string)
    requires other !in StatusOrder
    ensures Rank("Error") < Rank("Replaced") < Rank("Created") < Rank("Unchanged") < Rank("Skipped") < Rank(other)
  {
  }

  /** The text of a column. */
  function Field(row: FileResult, column: string): string {
    if column == "path" then row.path
    else if column == "status" then row.status
    else if column == "reason" then row.reason
    else row.template
  }

  /** `lessThan(left, right)` on column `column`: statuses by rank, other columns by text. */
  predicate LessThan(column: nat, l: FileResult, r: FileResult)
    requires column < |Columns|
  {
    if Columns[column] == "status" then Rank(l.status) < Rank(r.status)
    else StrLess(Field(l, Columns[column]), Field(r, Columns[column]))
  }

  /** Every column's comparison is a strict order, so sorting by it is well defined. */
  lemma LessThanStrict(column: nat, a: FileResult, b: FileResult, c: FileResult)
    requires column < |Columns|
    ensures !LessThan(column, a, a)
    ensures LessThan(column, a, b) ==> !LessThan(column, b, a)
    ensures LessThan(column, a, b) && LessThan(column, b, c) ==> LessThan(column, a, c)
  {
    if Columns[column] != "status" {
      var f := Columns[column];
      StrLessIrreflexive(Field(a, f));
      if StrLess(Field(a, f), Field(b, f)) {
        StrLessAsymmetric(Field(a, f), Field(b, f));
        if StrLess(Field(b, f), Field(c, f)) {
          StrLessTransitive(Field(a, f), Field(b, f), Field(c, f));
        }
      }
    }
  }

  /** Sorting the status column puts rows of a known status before rows of an unknown one,
      and orders known statuses as the status order does. */
  lemma StatusSort(l: FileResult, r: FileResult)
    ensures l.status in StatusOrder && r.status !in StatusOrder ==> LessThan(1, l, r)
    ensures l.status !in StatusOrder ==> !LessThan(1, l, r)
    ensures forall i, j :: 0 <= i < j < |StatusOrder| && l.status == StatusOrder[i] && r.status == StatusOrder[j] ==> LessThan(1, l, r)
  {
  }

  /** The text the search looks in: the four fields joined by single spaces. */
  function Haystack(row: FileResult): string {
    row.path + " " + row.status + " " + row.reason + " " + row.template
  }

  /** `filterAcceptsRow` for the filter `status` and the (already lowered) search text. */
  predicate Accepts(status: string, search: string, row: FileResult) {
    && (status == "All" || row.status == status)
    && (search == "" || Contains(Lower(Haystack(row)), search))
  }

  /** The proxy's filter state. */
  class ResultsFilterProxy {
    var statusFilter: string
    var searchText: string

    constructor()
      ensures statusFilter == "All" && searchText == ""
    {
      statusFilter := "All";
      searchText := "";
    }

    /** `setStatusFilter(status)` */
    method SetStatusFilter(status: string)
      modifies this
      ensures statusFilter == status && searchText == old(searchText)
    {
      statusFilter := status;
    }

    /** `setSearchText(text)`: the text is kept lower-cased. */
    method SetSearchText(text: string)
      modifies this
      ensures searchText == Lower(text) && statusFilter == old(statusFilter)
    {
      searchText := Lower(text);
    }

    /** `filterAcceptsRow(row)` */
    predicate FilterAcceptsRow(row: FileResult)
      reads this
    {
      Accepts(statusFilter, searchText, row)
    }
  }

  /** With the filter "All" and no search text every row is shown. */
  lemma AllAcceptsEverything(row: FileResult)
    ensures Accepts("All", "", row)
  {
  }

  /** Any other filter shows only rows of exactly that status; the search never widens it. */
  lemma StatusFilterExact(status: string, search: string, row: FileResult)
    requires status != "All"
    ensures Accepts(status, search, row) ==> row.status == status
    ensures search == "" ==> (Accepts(status, search, row) <==> row.status == status)
  {
  }

  /** The search ignores case: whatever is typed finds the row once the search box lowers
      it, when it differs only in case from text occurring in the row's fields. */
  lemma SearchIgnoresCase(row: FileResult, text: string, i: nat, typed: string)
    requires OccursAt(Haystack(row), text, i) && Lower(typed) == Lower(text)
    ensures Accepts("All", Lower(typed), row)
  {
    var h := Haystack(row);
    assert Lower(h)[i..i + |text|] == Lower(h[i..i + |text|]);
    assert OccursAt(Lower(h), Lower(text), i);
  }

  /** An example: the search runs over the joined text, so a match may span two fields. */
  lemma SearchSpansFields()
    ensures Accepts("All", "a.txt replaced", FileResult("a.txt", "Replaced", "success", "web", map[]))
  {
    var row := FileResult("a.txt", "Replaced", "success", "web", map[]);
    assert Haystack(row)[..14] == "a.txt Replaced";
    assert Lower("a.txt Replaced") == "a.txt replaced";
    SearchIgnoresCase(row, "a.txt Replaced", 0, "a.txt replaced");
  }

  // ----- counting -----

  /** The number of rows of status `s`. */
  function StatusCount(rows: seq<FileResult>, s: string): (n: nat)
    ensures n <= |rows|
  {
    if rows == [] then 0 else (if rows[0].status == s then 1 else 0) + StatusCount(rows[1..], s)
  }

  /** The number of rows whose status is one of the five known ones. */
  function KnownCount(rows: seq<FileResult>): (n: nat)
    ensures n <= |rows|
  {
    if rows == [] then 0 else (if rows[0].status in StatusOrder then 1 else 0) + KnownCount(rows[1..])
  }

  /** The counters before the loop: Total is the number of rows, the others zero. */
  function InitialCounts(rows: seq<FileResult>): map<string, nat> {
    map["Total" := |rows|, "Replaced" := 0, "Created" := 0, "Unchanged" := 0, "Skipped" := 0, "Error" := 0]
  }

  /** The counting loop from `rows[0]` on: a row bumps the counter of its status when that
      status is a key of the counters and one of `counted`. */
  function Tally(cnts: map<string, nat>, rows: seq<FileResult>, counted: seq<string>): (r: map<string, nat>)
    ensures r.Keys == cnts.Keys
  {
    if rows == [] then cnts
    else
      var s := rows[0].status;
      Tally(if s in cnts && s in counted then cnts[s := cnts[s] + 1] else cnts, rows[1..], counted)
  }

  lemma {:induction false} TallySpec(cnts: map<string, nat>, rows: seq<FileResult>, counted: seq<string>, k: string)
    ensures k in cnts ==> Tally(cnts, rows, counted)[k] == cnts[k] + (if k in counted then StatusCount(rows, k) else 0)
  {
    if rows != [] {
      var s := rows[0].status;
      TallySpec(if s in cnts && s in counted then cnts[s := cnts[s] + 1] else cnts, rows[1..], counted, k);
    }
  }

  /** `update_counts(rows)` as written: every key of the counters is bumped, "Total" too. */
  function CountsAsWritten(rows: seq<FileResult>): (r: map<string, nat>)
    ensures r.Keys == InitialCounts(rows).Keys
  {
    Tally(InitialCounts(rows), rows, ["Total"] + StatusOrder)
  }

  /** Before the loop Total is the number of rows and every status counter is zero. */
  lemma InitialValues(rows: seq<FileResult>)
    ensures InitialCounts(rows)["Total"] == |rows|
    ensures forall s :: s in StatusOrder ==> s in InitialCounts(rows) && InitialCounts(rows)[s] == 0
  {
  }

  /** As written, a row whose status is "Total" is counted twice in Total. */
  lemma TotalCountsStatusTotal(rows: seq<FileResult>)
    ensures CountsAsWritten(rows)["Total"] == |rows| + StatusCount(rows, "Total")
  {
    var counted := ["Total"] + StatusOrder;
    assert counted[0] == "Total";
    InitialValues(rows);
    TallySpec(InitialCounts(rows), rows, counted, "Total");
  }

  /** One such row makes Total 2. */
  lemma TotalMiscounted()
    ensures CountsAsWritten([FileResult("a.txt", "Total", "", "web", map[])])["Total"] == 2
  {
    TotalCountsStatusTotal([FileResult("a.txt", "Total", "", "web", map[])]);
  }

  /** The counters as intended: only the five statuses are bumped; Total stays the number
      of rows. */
  function Counts(rows: seq<FileResult>): (r: map<string, nat>)
    ensures r.Keys == InitialCounts(rows).Keys
  {
    Tally(InitialCounts(rows), rows, StatusOrder)
  }

  /** Total is the number of rows and each status counter the number of rows of that status. */
  lemma CountsSpec(rows: seq<FileResult>)
    ensures Counts(rows)["Total"] == |rows|
    ensures forall s :: s in StatusOrder ==> Counts(rows)[s] == StatusCount(rows, s)
  {
    InitialValues(rows);
    TallySpec(InitialCounts(rows), rows, StatusOrder, "Total");
    forall s | s in StatusOrder ensures Counts(rows)[s] == StatusCount(rows, s) {
      TallySpec(InitialCounts(rows), rows, StatusOrder, s);
    }
  }

  /** The five counters add up to the rows of a known status. */
  lemma {:induction false} KnownCountSum(rows: seq<FileResult>)
    ensures StatusCount(rows, "Replaced") + StatusCount(rows, "Created") + StatusCount(rows, "Unchanged")
          + StatusCount(rows, "Skipped") + StatusCount(rows, "Error") == KnownCount(rows)
  {
    if rows != [] {
      KnownCountSum(rows[1..]);
    }
  }

  lemma {:induction false} KnownCountAll(rows: seq<FileResult>)
    ensures KnownCount(rows) == |rows| <==> forall i :: 0 <= i < |rows| ==> rows[i].status in StatusOrder
  {
    if rows != [] {
      KnownCountAll(rows[1..]);
      assert forall i :: 1 <= i < |rows| ==> rows[i] == rows[1..][i - 1];
    }
  }

  /** The five status counters sum to at most Total, with equality exactly when every row's
      status is known. */
  lemma CountsBound(rows: seq<FileResult>)
    ensures var c := Counts(rows);
      c["Replaced"] + c["Created"] + c["Unchanged"] + c["Skipped"] + c["Error"] <= c["Total"]
    ensures var c := Counts(rows);
      (c["Replaced"] + c["Created"] + c["Unchanged"] + c["Skipped"] + c["Error"] == c["Total"])
        <==> forall i :: 0 <= i < |rows| ==> rows[i].status in StatusOrder
  {
    CountsSpec(rows);
    KnownCountSum(rows);
    KnownCountAll(rows);
  }

  /** The six labels of the summary bar, as counts. */
  class SummaryBar {
    var totalCount: nat
    var replacedCount: nat
    var createdCount: nat
    var unchangedCount: nat
    var skippedCount: nat
    var errorCount: nat

    constructor()
      ensures totalCount == 0 && replacedCount == 0 && createdCount == 0 && unchangedCount == 0 && skippedCount == 0 && errorCount == 0
    {
      totalCount, replacedCount, createdCount, unchangedCount, skippedCount, errorCount := 0, 0, 0, 0, 0, 0;
    }

    /** `update_counts(rows)`, with only the five statuses bumped. */
    method UpdateCounts(rows: seq<FileResult>)
      modifies this
      ensures var c := Counts(rows);
        && totalCount == c["Total"] && replacedCount == c["Replaced"] && createdCount == c["Created"]
        && unchangedCount == c["Unchanged"] && skippedCount == c["Skipped"] && errorCount == c["Error"]
    {
      var cnts := InitialCounts(rows);
      var i := 0;
      while i < |rows|
        invariant 0 <= i <= |rows|
        invariant Tally(cnts, rows[i..], StatusOrder) == Counts(rows)
        invariant cnts.Keys == InitialCounts(rows).Keys
      {
        assert rows[i..][1..] == rows[i + 1..];
        var s := rows[i].status;
        if s in cnts && s in StatusOrder {
          cnts := cnts[s := cnts[s] + 1];
        }
        i := i + 1;
      }
      totalCount, replacedCount, createdCount := cnts["Total"], cnts["Replaced"], cnts["Created"];
      unchangedCount, skippedCount, errorCount := cnts["Unchanged"], cnts["Skipped"], cnts["Error"];
    }
  }

  // ----- the status filter box -----

  /** The entries added to the box before deduplication. */
  const ComboSource: seq<string> := ["All"] + StatusOrder + ["Replaced", "Created", "Unchanged", "Skipped"]

  /** The entries after deduplication: each once, in order of first appearance. */
  lemma ComboItems()
    ensures DedupBy(Id, ComboSource) == ["All"] + StatusOrder
  {
    var p := ["All"] + StatusOrder;
    var q := ["Replaced", "Created", "Unchanged", "Skipped"];
    DedupDistinct(p);
    DedupAbsorbs(p, q);
  }

  /** The deduplicating loop over the box's entries. */
  method StatusComboItems() returns (items: seq<string>)
    ensures items == ["All"] + StatusOrder
  {
    var source := ComboSource;
    var seen: set<string> := {};
    items := [];
    var i := 0;
    while i < |source|
      invariant 0 <= i <= |source|
      invariant items == DedupBy(Id, source[..i])
      invariant forall x :: x in seen <==> x in items
    {
      assert source[..i + 1] == source[..i] + [source[i]];
      DedupIdSnoc(source[..i], source[i]);
      var s := source[i];
      if s !in seen {
        items := items + [s];
        seen := seen + {s};
      }
      i := i + 1;
    }
    assert source[..i] == source;
    ComboItems();
  }
}

/** The report builder: one row per email, in ascending id order, holding the
    email's aggregate counters and the name of its top variant. */
module Report {
  import opened Errors
  import opened Ranking

  /** One CSV cell: the rows mix integer and string values. */
  datatype Cell = Num(n: int) | Text(s: string)

  type Row = seq<Cell>

  /** An email's detail record as the API returns it: its name, its
      aggregate statistics by counter name, and its variants with the
      statistics fetched for each. */
  datatype EmailInfo = EmailInfo(name: string, statistics: map<string, nat>, variants: seq<Variant>)

  /** A snapshot of the API: the detail record of every email id it knows. */
  type Api = map<int, EmailInfo>

  /** The aggregate counters, in the order of the report's columns. */
  const StatNames: seq<string> := ["recipients", "opens", "clicks", "unsubscribes", "bounces"]

  /** The API knows the email and its statistics hold all five counters. */
  ghost predicate HasStatistics(api: Api, emailId: int) {
    emailId in api && forall j :: 0 <= j < |StatNames| ==> StatNames[j] in api[emailId].statistics
  }

  /** The email's row can be built: its statistics are complete and every
      variant has recipients. */
  ghost predicate Succeeds(api: Api, emailId: int) {
    HasStatistics(api, emailId) && AllDelivered(api[emailId].variants)
  }

  /** e is the failure the script raises first for this email: an unknown id,
      else the first missing counter in column order, else the first variant
      without recipients. */
  ghost predicate FailsWith(api: Api, emailId: int, e: Failure) {
    match e
    case UnknownEmail(id) =>
      id == emailId && emailId !in api
    case MissingStatistic(id, stat) =>
      id == emailId && emailId in api &&
      exists j :: 0 <= j < |StatNames| && stat == StatNames[j] && stat !in api[emailId].statistics &&
        forall i :: 0 <= i < j ==> StatNames[i] in api[emailId].statistics
    case DivisionByZero(id, z) =>
      id == emailId && HasStatistics(api, emailId) &&
      var vs := api[emailId].variants;
      z < |vs| && vs[z].recipients == 0 && AllDelivered(vs[..z])
  }

  /** row is [id, name, recipients, opens, clicks, unsubscribes, bounces],
      the counters copied from the email's aggregate statistics. */
  ghost predicate IsStatsRow(api: Api, emailId: int, row: Row)
    requires HasStatistics(api, emailId)
  {
    var info := api[emailId];
    |row| == 2 + |StatNames| && row[0] == Num(emailId) && row[1] == Text(info.name) &&
    forall j :: 0 <= j < |StatNames| ==> row[2 + j] == Num(info.statistics[StatNames[j]])
  }

  /** row is the email's statistics row followed by the name of its top variant. */
  ghost predicate IsReportRow(api: Api, emailId: int, row: Row) {
    HasStatistics(api, emailId) && |row| == 3 + |StatNames| &&
    IsStatsRow(api, emailId, row[..2 + |StatNames|]) &&
    row[2 + |StatNames|].Text? && IsWinnerName(api[emailId].variants, row[2 + |StatNames|].s)
  }

  lemma FailureExcludesSuccess(api: Api, emailId: int, e: Failure)
    requires FailsWith(api, emailId, e)
    ensures !Succeeds(api, emailId)
  {
  }

  /** Fetches one email's detail record and orders its statistics into the
      first seven columns of its row; also returns the email's variants. */
  method EmailStats(api: Api, emailId: int) returns (r: Result<(seq<Variant>, Row)>)
    ensures r.Ok? <==> HasStatistics(api, emailId)
    ensures r.Ok? ==> r.value.0 == api[emailId].variants && IsStatsRow(api, emailId, r.value.1)
    ensures r.Err? ==> FailsWith(api, emailId, r.error)
  {
    if emailId !in api {
      return Err(UnknownEmail(emailId));
    }
    var info := api[emailId];
    var ordered := [Num(emailId), Text(info.name)];
    for i := 0 to |StatNames|
      invariant |ordered| == 2 + i
      invariant ordered[0] == Num(emailId) && ordered[1] == Text(info.name)
      invariant forall j :: 0 <= j < i ==>
                  StatNames[j] in info.statistics && ordered[2 + j] == Num(info.statistics[StatNames[j]])
    {
      var stat := StatNames[i];
      if stat !in info.statistics {
        return Err(MissingStatistic(emailId, stat));
      }
      ordered := ordered + [Num(info.statistics[stat])];
    }
    r := Ok((info.variants, ordered));
  }

  predicate IsAscending(s: seq<int>) {
    forall i, j :: 0 <= i < j < |s| ==> s[i] <= s[j]
  }

  /** Inserts x into an ascending sequence, keeping it ascending. */
  function Insert(x: int, s: seq<int>): (r: seq<int>)
    requires IsAscending(s)
    ensures IsAscending(r) && multiset(r) == multiset(s) + multiset{x}
  {
    if s == [] || x <= s[0] then
      AscendingCons(x, s);
      [x] + s
    else
      assert s == [s[0]] + s[1..];
      var t := Insert(x, s[1..]);
      assert s[0] <= t[0] by {
        assert t[0] in multiset(s[1..]) + multiset{x};
      }
      AscendingCons(s[0], t);
      [s[0]] + t
  }

  lemma AscendingCons(h: int, t: seq<int>)
    requires IsAscending(t) && (t != [] ==> h <= t[0])
    ensures IsAscending([h] + t)
  {
  }

  /** The email ids in ascending numeric order: an ascending permutation of
      the ids the enumerator returned. */
  function SortAscending(ids: seq<int>): (r: seq<int>)
    ensures IsAscending(r) && multiset(r) == multiset(ids)
  {
    if ids == [] then
      []
    else
      assert ids == [ids[0]] + ids[1..];
      Insert(ids[0], SortAscending(ids[1..]))
  }

  /** The body of the report loop for one email: its statistics row with the
      name of its top variant appended. */
  method EmailRow(api: Api, emailId: int) returns (r: Result<Row>)
    ensures r.Ok? <==> Succeeds(api, emailId)
    ensures r.Ok? ==> IsReportRow(api, emailId, r.value)
    ensures r.Err? ==> FailsWith(api, emailId, r.error)
  {
    var stats := EmailStats(api, emailId);
    if stats.Err? {
      FailureExcludesSuccess(api, emailId, stats.error);
      return Err(stats.error);
    }
    var (variants, row) := stats.value;
    var top, _ := TopVariant(emailId, variants);
    if top.Err? {
      return Err(top.error);
    }
    ReportRowOf(api, emailId, row, top.value);
    r := Ok(row + [Text(top.value)]);
  }

  /** Builds the report: sorts the ids, pre-sizes the report and fills it by
      index with each email's statistics row and top variant. Any failure
      aborts the whole report. */
  method BuildReport(api: Api, emailIds: seq<int>) returns (r: Result<seq<Row>>)
    ensures r.Ok? <==> forall i :: 0 <= i < |emailIds| ==> Succeeds(api, emailIds[i])
    ensures r.Ok? ==> var ids := SortAscending(emailIds);
              |r.value| == |ids| && forall i :: 0 <= i < |ids| ==> IsReportRow(api, ids[i], r.value[i])
    ensures r.Err? ==> var id := r.error.emailId;
              id in emailIds && FailsWith(api, id, r.error) &&
              forall i :: 0 <= i < |emailIds| && emailIds[i] < id ==> Succeeds(api, emailIds[i])
  {
    var ids := SortAscending(emailIds);
    var report := new Row[|ids|](_ => []);
    for index := 0 to |ids|
      invariant forall j :: 0 <= j < index ==> Succeeds(api, ids[j]) && IsReportRow(api, ids[j], report[j])
    {
      var row := EmailRow(api, ids[index]);
      if row.Err? {
        FirstFailure(api, emailIds, ids, index, row.error);
        return Err(row.error);
      }
      report[index] := row.value;
    }
    AllSucceed(api, emailIds, ids);
    r := Ok(report[..]);
  }

  /** Appending the winner's name to the statistics row gives the report row. */
  lemma ReportRowOf(api: Api, emailId: int, row: Row, winner: string)
    requires HasStatistics(api, emailId) && IsStatsRow(api, emailId, row)
    requires IsWinnerName(api[emailId].variants, winner)
    ensures IsReportRow(api, emailId, row + [Text(winner)])
  {
    assert (row + [Text(winner)])[..2 + |StatNames|] == row;
  }

  /** A failure of the email at a position of the sorted ids, with only
      successes before it: it belongs to one of the enumerated ids, and every
      enumerated id below it succeeds. */
  lemma FirstFailure(api: Api, emailIds: seq<int>, ids: seq<int>, index: int, e: Failure)
    requires multiset(ids) == multiset(emailIds) && IsAscending(ids)
    requires 0 <= index < |ids| && FailsWith(api, ids[index], e)
    requires forall j :: 0 <= j < index ==> Succeeds(api, ids[j])
    ensures e.emailId in emailIds && !Succeeds(api, e.emailId)
    ensures forall i :: 0 <= i < |emailIds| && emailIds[i] < e.emailId ==> Succeeds(api, emailIds[i])
  {
    FailureExcludesSuccess(api, ids[index], e);
    assert ids[index] in multiset(emailIds);
    forall i | 0 <= i < |emailIds| && emailIds[i] < e.emailId
      ensures Succeeds(api, emailIds[i])
    {
      assert emailIds[i] in multiset(ids);
      var j :| 0 <= j < |ids| && ids[j] == emailIds[i];
      assert ids[j] < ids[index];
    }
  }

  /** When every sorted id succeeds, so does every enumerated id. */
  lemma AllSucceed(api: Api, emailIds: seq<int>, ids: seq<int>)
    requires multiset(ids) == multiset(emailIds)
    requires forall j :: 0 <= j < |ids| ==> Succeeds(api, ids[j])
    ensures forall i :: 0 <= i < |emailIds| ==> Succeeds(api, emailIds[i])
  {
    forall i | 0 <= i < |emailIds|
      ensures Succeeds(api, emailIds[i])
    {
      assert emailIds[i] in multiset(ids);
      var j :| 0 <= j < |ids| && ids[j] == emailIds[i];
    }
  }

  /** The rows come in ascending order of their id column. */
  lemma ReportRowsInIdOrder(api: Api, emailIds: seq<int>, rows: seq<Row>)
    requires |rows| == |SortAscending(emailIds)|
    requires forall i :: 0 <= i < |rows| ==> IsReportRow(api, SortAscending(emailIds)[i], rows[i])
    ensures forall i :: 0 <= i < |rows| ==> |rows[i]| > 0 && rows[i][0] == Num(SortAscending(emailIds)[i])
    ensures forall i, j :: 0 <= i < j < |rows| ==>
              |rows[i]| > 0 && |rows[j]| > 0 && rows[i][0].Num? && rows[j][0].Num? && rows[i][0].n <= rows[j][0].n
  {
    var ids := SortAscending(emailIds);
    forall i | 0 <= i < |rows|
      ensures |rows[i]| > 0 && rows[i][0] == Num(ids[i])
    {
      assert rows[i][..2 + |StatNames|][0] == rows[i][0];
    }
  }

  /** The first seven columns of an email's row depend only on its detail
      record's name and aggregate statistics, never on its variants. */
  lemma CountersIgnoreVariants(api: Api, emailId: int, others: seq<Variant>, row: Row, row': Row)
    requires emailId in api
    requires IsReportRow(api, emailId, row)
    requires IsReportRow(api[emailId := api[emailId].(variants := others)], emailId, row')
    ensures row[..2 + |StatNames|] == row'[..2 + |StatNames|]
  {
    var n := 2 + |StatNames|;
    var api' := api[emailId := api[emailId].(variants := others)];
    var stats := api[emailId].statistics;
    assert api'[emailId].statistics == stats && api'[emailId].name == api[emailId].name;
    forall k | 0 <= k < n
      ensures row[..n][k] == row'[..n][k]
    {
      if k >= 2 {
        var j := k - 2;
        assert row[..n][2 + j] == Num(stats[StatNames[j]]);
        assert row'[..n][2 + j] == Num(stats[StatNames[j]]);
      }
    }
  }

  /** Ids enumerated as [42, 7] give the rows of 7 and then 42; an email
      without variants gets an empty winner. */
  method ReportExamples()
  {
    var stats := map["recipients" := 10, "opens" := 4, "clicks" := 2, "unsubscribes" := 1, "bounces" := 0];
    var api := map[42 := EmailInfo("Spring", stats, []), 7 := EmailInfo("Fall", stats, [Variant("X", 5, 1)])];
    ExampleSucceeds(api, 42);
    ExampleSucceeds(api, 7);
    ExampleSorted();
    var r := BuildReport(api, [42, 7]);
    var rows := r.value;
    ReportRowsInIdOrder(api, [42, 7], rows);
    assert rows[0][0] == Num(7) && rows[1][0] == Num(42);
    assert IsReportRow(api, 42, rows[1]);
    assert rows[1][7] == Text("");
  }

  lemma ExampleSorted()
    ensures SortAscending([42, 7]) == [7, 42]
  {
    assert [42, 7][1..] == [7];
    assert SortAscending([7]) == [7];
  }

  lemma ExampleSucceeds(api: Api, emailId: int)
    requires emailId in api && AllDelivered(api[emailId].variants)
    requires api[emailId].statistics.Keys == {"recipients", "opens", "clicks", "unsubscribes", "bounces"}
    ensures Succeeds(api, emailId)
  {
  }
}

/**
 * The researcher routes: every handler first passes the researcher role
 * gate, the study handlers then check ownership before reading any data,
 * and the export handlers flatten results into CSV rows, one per response.
 */
module ResearcherRoutes {
  import opened Common
  import opened Enums
  import opened Store
  import opened ResearcherDashboardService
  import opened UserManager

  /** The roles the researcher routes admit (`require_role(UserRole.RESEARCHER)`). */
  const ResearcherOnly: set<Role> := {Researcher}

  // ---------------------------------------------------------------------
  // JSON handlers

  /** `get_my_studies`: the caller's own studies. */
  method GetMyStudies(db: Db, user: User) returns (r: Result<seq<StudyListItem>>)
    ensures r.Err? <==> RequireRole(ResearcherOnly, user).Err?
    ensures r.Err? ==> r.error == Forbidden
    ensures r.Ok? ==> r.value == ItemsFor(db, StudiesOf(db.studies, user.id))
  {
    var gate := RequireRole(ResearcherOnly, user);
    if gate.Err? {
      return Err(gate.error);
    }
    var items := ListStudiesForResearcher(db, user.id);
    r := Ok(items);
  }

  /**
   * `get_study_summary`: 403 for a non-researcher, then 404 unless the
   * caller owns the study (the same answer whether or not it exists), and
   * only then the summary.
   */
  method GetStudySummary(db: Db, studyId: Uuid, user: User) returns (r: Result<StudySummary>)
    ensures RequireRole(ResearcherOnly, user).Err? ==> r == Err(Forbidden)
    ensures RequireRole(ResearcherOnly, user).Ok? && !Owns(db.studies, studyId, user.id) ==> r == Err(StudyNotFound)
    ensures r.Ok? <==> RequireRole(ResearcherOnly, user).Ok? && Owns(db.studies, studyId, user.id)
    ensures r.Ok? ==>
              && r.value.studyId == studyId
              && r.value.totalSubmissions == TotalSubmissions(db, studyId)
              && r.value.expectedItems == ExpectedItemsOfStudy(db, studyId)
              && r.value.completeSubmissions == CompleteSubmissions(db, studyId)
              && r.value.completionRate == CompletionRate(r.value.completeSubmissions, r.value.totalSubmissions)
              && 0.0 <= r.value.completionRate <= 100.0
              && r.value.answerHistogram == Histogram(AnswersOf(ResponsesOfStudy(db, studyId)))
  {
    var gate := RequireRole(ResearcherOnly, user);
    if gate.Err? {
      return Err(gate.error);
    }
    var denied := EnsureOwnership(db, studyId, user.id);
    if denied.Some? {
      return Err(denied.value);
    }
    var summary := SummarizeStudy(db, studyId);
    r := Ok(summary);
  }

  /** `get_study_results`: the same gates, then one page of results (page 1 of 10 by default). */
  method GetStudyResults(db: Db, studyId: Uuid, page: int, pageSize: int, user: User) returns (r: Result<PagedResults>)
    ensures RequireRole(ResearcherOnly, user).Err? ==> r == Err(Forbidden)
    ensures RequireRole(ResearcherOnly, user).Ok? && !Owns(db.studies, studyId, user.id) ==> r == Err(StudyNotFound)
    ensures r.Ok? <==> RequireRole(ResearcherOnly, user).Ok? && Owns(db.studies, studyId, user.id) && pageSize >= 0
    ensures r.Ok? ==> r.value == PagedResults(PageItems(db, studyId, page, pageSize), page, pageSize, TotalSubmissions(db, studyId))
  {
    var gate := RequireRole(ResearcherOnly, user);
    if gate.Err? {
      return Err(gate.error);
    }
    var denied := EnsureOwnership(db, studyId, user.id);
    if denied.Some? {
      return Err(denied.value);
    }
    r := PagedResultsOf(db, studyId, page, pageSize);
  }

  // ---------------------------------------------------------------------
  // CSV

  /** A CSV cell: the value written, before the writer formats it. */
  datatype Cell = Text(text: string) | Int(number: int) | Time(time: Timestamp) | Real(fraction: real)

  type Row = seq<Cell>

  function TextRow(names: seq<string>): (row: Row)
    ensures |row| == |names|
    ensures forall i :: 0 <= i < |names| ==> row[i] == Text(names[i])
  {
    seq(|names|, i requires 0 <= i < |names| => Text(names[i]))
  }

  const ResultsHeader: Row := TextRow(["study_results_id", "subject_id", "submitted", "image_id", "answer", "response_time"])

  /** One data row of the study export: the result's id, subject and time, then the response. */
  function DataRow(item: ResultItem, resp: ResponseView): (row: Row)
    ensures |row| == 6
  {
    [Text(Hyphenated(item.studyResultsId)), Text(Hyphenated(item.subjectId)), Time(item.submitted),
     Text(resp.imageId), Int(resp.answer), Real(resp.responseTime)]
  }

  /** The data rows of one result, one per response, in list order. */
  function ItemRows(item: ResultItem): (rows: seq<Row>)
    ensures |rows| == |item.responses|
    ensures forall j :: 0 <= j < |rows| ==> rows[j] == DataRow(item, item.responses[j])
  {
    seq(|item.responses|, j requires 0 <= j < |item.responses| => DataRow(item, item.responses[j]))
  }

  /** The data rows of all results, in result order. */
  function FlattenRows(items: seq<ResultItem>): seq<Row>
  {
    if items == [] then [] else FlattenRows(items[..|items| - 1]) + ItemRows(items[|items| - 1])
  }

  /** The number of responses over all results. */
  function ResponseTotal(items: seq<ResultItem>): nat
  {
    if items == [] then 0 else ResponseTotal(items[..|items| - 1]) + |items[|items| - 1].responses|
  }

  /** There is one data row per (result, response) pair. */
  lemma {:induction false} FlattenRowsCount(items: seq<ResultItem>)
    ensures |FlattenRows(items)| == ResponseTotal(items)
    decreases |items|
  {
    if items != [] {
      FlattenRowsCount(items[..|items| - 1]);
    }
  }

  /** Every data row comes from a response of one of the results, and every such response has its row. */
  lemma FlattenRowsContents(items: seq<ResultItem>)
    ensures forall row :: row in FlattenRows(items) ==>
              exists i, j :: 0 <= i < |items| && 0 <= j < |items[i].responses| && row == DataRow(items[i], items[i].responses[j])
    ensures forall i, j :: 0 <= i < |items| && 0 <= j < |items[i].responses| ==> DataRow(items[i], items[i].responses[j]) in FlattenRows(items)
  {
    FlattenRowsFromResponses(items);
    FlattenRowsOfResponses(items);
  }

  lemma {:induction false} FlattenRowsFromResponses(items: seq<ResultItem>)
    ensures forall row :: row in FlattenRows(items) ==>
              exists i, j :: 0 <= i < |items| && 0 <= j < |items[i].responses| && row == DataRow(items[i], items[i].responses[j])
    decreases |items|
  {
    if items != [] {
      var front := items[..|items| - 1];
      var last := items[|items| - 1];
      FlattenRowsFromResponses(front);
      forall row | row in FlattenRows(items)
        ensures exists i, j :: 0 <= i < |items| && 0 <= j < |items[i].responses| && row == DataRow(items[i], items[i].responses[j])
      {
        if row in FlattenRows(front) {
          var i, j :| 0 <= i < |front| && 0 <= j < |front[i].responses| && row == DataRow(front[i], front[i].responses[j]);
          assert items[i] == front[i];
        } else {
          assert row in ItemRows(last);
          var j :| 0 <= j < |ItemRows(last)| && ItemRows(last)[j] == row;
          assert items[|items| - 1] == last;
        }
      }
    }
  }

  lemma {:induction false} FlattenRowsOfResponses(items: seq<ResultItem>)
    ensures forall i, j :: 0 <= i < |items| && 0 <= j < |items[i].responses| ==> DataRow(items[i], items[i].responses[j]) in FlattenRows(items)
    decreases |items|
  {
    if items != [] {
      var front := items[..|items| - 1];
      var last := items[|items| - 1];
      FlattenRowsOfResponses(front);
      forall i, j | 0 <= i < |items| && 0 <= j < |items[i].responses|
        ensures DataRow(items[i], items[i].responses[j]) in FlattenRows(items)
      {
        if i < |front| {
          assert items[i] == front[i];
        } else {
          assert ItemRows(last)[j] == DataRow(items[i], items[i].responses[j]);
        }
      }
    }
  }

  /** The id cells of a data row read back as the result's and the subject's ids. */
  lemma DataRowIds(item: ResultItem, resp: ResponseView)
    ensures DataRow(item, resp)[0].Text? && |DataRow(item, resp)[0].text| == 36
    ensures Unhyphenated(DataRow(item, resp)[0].text) == item.studyResultsId
    ensures DataRow(item, resp)[1].Text? && |DataRow(item, resp)[1].text| == 36
    ensures Unhyphenated(DataRow(item, resp)[1].text) == item.subjectId
  {
    HyphenatedRoundTrip(item.studyResultsId);
    HyphenatedRoundTrip(item.subjectId);
  }

  /** The page size of the export: every result, up to ten million. */
  const ExportPageSize := 10_000_000

  /**
   * `export_results_csv`: the gates, then page 1 of the results with the
   * export page size, written out as the header and one row per response.
   */
  method ExportResultsCsv(db: Db, studyId: Uuid, user: User) returns (r: Result<seq<Row>>)
    ensures RequireRole(ResearcherOnly, user).Err? ==> r == Err(Forbidden)
    ensures RequireRole(ResearcherOnly, user).Ok? && !Owns(db.studies, studyId, user.id) ==> r == Err(StudyNotFound)
    ensures r.Ok? <==> RequireRole(ResearcherOnly, user).Ok? && Owns(db.studies, studyId, user.id)
    ensures r.Ok? ==> r.value == [ResultsHeader] + FlattenRows(PageItems(db, studyId, 1, ExportPageSize))
  {
    var gate := RequireRole(ResearcherOnly, user);
    if gate.Err? {
      return Err(gate.error);
    }
    var denied := EnsureOwnership(db, studyId, user.id);
    if denied.Some? {
      return Err(denied.value);
    }
    var paged := PagedResultsOf(db, studyId, 1, ExportPageSize);
    var items := paged.value.items;
    var rows := WriteResultRows(items);
    r := Ok(rows);
  }

  /** The nested loops of `export_results_csv`: the header, then each result's responses in turn. */
  method WriteResultRows(items: seq<ResultItem>) returns (rows: seq<Row>)
    ensures rows == [ResultsHeader] + FlattenRows(items)
    ensures |rows| == 1 + ResponseTotal(items)
  {
    rows := [ResultsHeader];
    for i := 0 to |items|
      invariant rows == [ResultsHeader] + FlattenRows(items[..i])
    {
      var item := items[i];
      FlattenRowsStep(items, i);
      for j := 0 to |item.responses|
        invariant rows == [ResultsHeader] + FlattenRows(items[..i]) + ItemRows(item)[..j]
      {
        ItemRowsStep(item, j);
        rows := rows + [DataRow(item, item.responses[j])];
      }
      assert ItemRows(item)[..|item.responses|] == ItemRows(item);
    }
    assert items[..|items|] == items;
    FlattenRowsCount(items);
  }

  /** The rows of the first i + 1 results are those of the first i, then those of result i. */
  lemma FlattenRowsStep(items: seq<ResultItem>, i: nat)
    requires i < |items|
    ensures FlattenRows(items[..i + 1]) == FlattenRows(items[..i]) + ItemRows(items[i])
  {
    assert items[..i + 1][..i] == items[..i];
  }

  /** The first j + 1 rows of a result are its first j rows, then the row of response j. */
  lemma ItemRowsStep(item: ResultItem, j: nat)
    requires j < |item.responses|
    ensures ItemRows(item)[..j + 1] == ItemRows(item)[..j] + [DataRow(item, item.responses[j])]
  {
  }

  /** With no more results than the export page size, the export reads every result of the study, newest first. */
  lemma ExportReadsAllResults(db: Db, studyId: Uuid)
    requires TotalSubmissions(db, studyId) <= ExportPageSize
    ensures PageRows(db, studyId, 1, ExportPageSize) == SortDesc(ResultsOfStudy(db.results, studyId))
  {
    var all := ResultsOfStudy(db.results, studyId);
    SortDescSorted(all);
    assert |SortDesc(all)| == |multiset(all)| == |all|;
    FirstPage(db, studyId, 1, ExportPageSize);
  }

  // ---------------------------------------------------------------------
  // Exports of single result sets

  /** A result set as the export helpers hand it over: the study, subject and time, and its responses. */
  datatype ResultInfo = ResultInfo(studyId: Uuid, subjectId: Uuid, submitted: Timestamp)

  datatype ExportData = ExportData(results: ResultInfo, responses: seq<ResponseView>)

  datatype CsvFile = CsvFile(rows: seq<Row>, disposition: string)

  const ExportHeader: Row := TextRow(["Study ID", "Subject ID", "Submission", "CFD Image ID", "Answer", "Response time (ms)"])

  function ExportRow(info: ResultInfo, resp: ResponseView): (row: Row)
    ensures |row| == 6
  {
    [Text(Hyphenated(info.studyId)), Text(Hyphenated(info.subjectId)), Time(info.submitted),
     Text(resp.imageId), Int(resp.answer), Real(resp.responseTime)]
  }

  function ExportRows(data: ExportData): (rows: seq<Row>)
    ensures |rows| == |data.responses|
    ensures forall j :: 0 <= j < |rows| ==> rows[j] == ExportRow(data.results, data.responses[j])
  {
    seq(|data.responses|, j requires 0 <= j < |data.responses| => ExportRow(data.results, data.responses[j]))
  }

  function AllExportRows(data: seq<ExportData>): seq<Row>
  {
    if data == [] then [] else AllExportRows(data[..|data| - 1]) + ExportRows(data[|data| - 1])
  }

  /** The rows of the first i + 1 entries are those of the first i, then those of entry i. */
  lemma AllExportRowsStep(data: seq<ExportData>, i: nat)
    requires i < |data|
    ensures AllExportRows(data[..i + 1]) == AllExportRows(data[..i]) + ExportRows(data[i])
  {
    assert data[..i + 1][..i] == data[..i];
  }

  /** The first j + 1 rows of an entry are its first j rows, then the row of response j. */
  lemma ExportRowsStep(data: ExportData, j: nat)
    requires j < |data.responses|
    ensures ExportRows(data)[..j + 1] == ExportRows(data)[..j] + [ExportRow(data.results, data.responses[j])]
  {
  }

  /** The attachment header naming `name` in both its plain and its UTF-8 form. */
  function Attachment(name: string): string
  {
    "attachment; filename=" + name + "; filename*=UTF-8''" + name
  }

  const ResultsSuffix := "-results.csv"

  /**
   * The file name of a single export: the last six hex characters of the
   * study's id, followed by the suffix. The study id is not a configuration
   * id, so this is not the code subjects enter.
   */
  function ExportFileName(studyId: Uuid): (name: string)
    ensures name == Code(studyId) + ResultsSuffix
  {
    HyphenatedEndsWithCode(studyId);
    var h := Hyphenated(studyId);
    h[|h| - 6..] + ResultsSuffix
  }

  /** Writes the export header, then one row per response of each entry in turn. */
  method WriteExportRows(data: seq<ExportData>) returns (rows: seq<Row>)
    ensures rows == [ExportHeader] + AllExportRows(data)
  {
    rows := [ExportHeader];
    for i := 0 to |data|
      invariant rows == [ExportHeader] + AllExportRows(data[..i])
    {
      var entry := data[i];
      AllExportRowsStep(data, i);
      for j := 0 to |entry.responses|
        invariant rows == [ExportHeader] + AllExportRows(data[..i]) + ExportRows(entry)[..j]
      {
        ExportRowsStep(entry, j);
        rows := rows + [ExportRow(entry.results, entry.responses[j])];
      }
      assert ExportRows(entry)[..|entry.responses|] == ExportRows(entry);
    }
    assert data[..|data|] == data;
  }

  /**
   * `export_study_results_by_id`: the result set comes from a helper (its
   * errors pass through); the file holds the header and one row per
   * response, and is named after the last six hex characters of the
   * study's id (not the configuration code subjects enter).
   */
  method ExportStudyResultsById(fetched: Result<ExportData>, user: User) returns (r: Result<CsvFile>)
    ensures RequireRole(ResearcherOnly, user).Err? ==> r == Err(Forbidden)
    ensures RequireRole(ResearcherOnly, user).Ok? && fetched.Err? ==> r == Err(fetched.error)
    ensures r.Ok? <==> RequireRole(ResearcherOnly, user).Ok? && fetched.Ok?
    ensures r.Ok? ==>
              && r.value.rows == [ExportHeader] + ExportRows(fetched.value)
              && |r.value.rows| == 1 + |fetched.value.responses|
              && r.value.disposition == Attachment(Code(fetched.value.results.studyId) + ResultsSuffix)
  {
    var gate := RequireRole(ResearcherOnly, user);
    if gate.Err? {
      return Err(gate.error);
    }
    if fetched.Err? {
      return Err(fetched.error);
    }
    var data := fetched.value;
    var rows := WriteExportRows([data]);
    assert [data][..0] == [];
    r := Ok(CsvFile(rows, Attachment(ExportFileName(data.results.studyId))));
  }

  /** `export_all`: every entry's rows in entry order, in a file named after the caller's id. */
  method ExportAll(fetched: Result<seq<ExportData>>, user: User) returns (r: Result<CsvFile>)
    ensures RequireRole(ResearcherOnly, user).Err? ==> r == Err(Forbidden)
    ensures RequireRole(ResearcherOnly, user).Ok? && fetched.Err? ==> r == Err(fetched.error)
    ensures r.Ok? <==> RequireRole(ResearcherOnly, user).Ok? && fetched.Ok?
    ensures r.Ok? ==>
              && r.value.rows == [ExportHeader] + AllExportRows(fetched.value)
              && r.value.disposition == Attachment(Hyphenated(user.id) + ResultsSuffix)
  {
    var gate := RequireRole(ResearcherOnly, user);
    if gate.Err? {
      return Err(gate.error);
    }
    if fetched.Err? {
      return Err(fetched.error);
    }
    var rows := WriteExportRows(fetched.value);
    r := Ok(CsvFile(rows, Attachment(Hyphenated(user.id) + ResultsSuffix)));
  }

  /** The export of all entries has one row per response, and its rows are each entry's rows in entry order. */
  lemma {:induction false} AllExportRowsAppend(a: seq<ExportData>, b: seq<ExportData>)
    ensures AllExportRows(a + b) == AllExportRows(a) + AllExportRows(b)
    decreases |b|
  {
    if b == [] {
      assert a + b == a;
    } else {
      var b' := b[..|b| - 1];
      var last := b[|b| - 1];
      assert (a + b)[..|a + b| - 1] == a + b';
      assert (a + b)[|a + b| - 1] == last;
      AllExportRowsAppend(a, b');
      assert AllExportRows(a + b) == AllExportRows(a + b') + ExportRows(last);
      assert AllExportRows(b) == AllExportRows(b') + ExportRows(last);
    }
  }
}

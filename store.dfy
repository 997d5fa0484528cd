/**
 * The relational store the services read and write, as values: one field per
 * table. Configuration sub-records are keyed by their configuration's id
 * (their primary key); the other tables are sequences of rows in table order.
 * A `Session` is the database session a request works through: what has been
 * committed, and the session's own view with its uncommitted changes.
 */
module Store {
  import opened Common
  import opened Enums

  type Bytes = seq<bv8>

  /** A row of the uploaded-files table: file names, and the bytes of the three documents. */
  datatype FilesRow = FilesRow(
    consentForm: string,
    consentFormBytes: Bytes,
    studyInstructions: string,
    studyInstructionsBytes: Bytes,
    learningImageList: Option<string>,
    experimentImageList: Option<string>,
    studyDebrief: string,
    studyDebriefBytes: Bytes)

  datatype LearningPhase = LearningPhase(displayDuration: int, pauseDuration: int, displayMethod: DisplayMethod)

  datatype WaitPhase = WaitPhase(displayDuration: int)

  datatype ExperimentPhase = ExperimentPhase(
    displayDuration: int,
    pauseDuration: int,
    displayMethod: DisplayMethod,
    responseMethod: ResponseMethod)

  /** A conclusion row; `survey` is the column the has-survey flag is stored in. */
  datatype ConclusionRow = ConclusionRow(showResults: bool, survey: bool)

  /** A survey configuration with its question texts, in stored order. */
  datatype SurveyRow = SurveyRow(id: Uuid, studyConfigId: Uuid, questions: seq<string>)

  datatype StudyRow = StudyRow(id: Uuid, researcher: Uuid, configurationId: Option<Uuid>)

  /** One subject's submission attempt. */
  datatype ResultRow = ResultRow(id: Uuid, studyId: Uuid, configId: Uuid, subjectId: Uuid, submitted: Timestamp)

  /** One answer within a result set. */
  datatype ResponseRow = ResponseRow(studyResultsId: Uuid, imageId: string, responseTime: real, answer: int)

  datatype Db = Db(
    configs: seq<Uuid>,
    files: map<Uuid, FilesRow>,
    learning: map<Uuid, LearningPhase>,
    waits: map<Uuid, WaitPhase>,
    experiments: map<Uuid, ExperimentPhase>,
    conclusions: map<Uuid, ConclusionRow>,
    surveys: seq<SurveyRow>,
    studies: seq<StudyRow>,
    results: seq<ResultRow>,
    responses: seq<ResponseRow>,
    studyOfConfig: map<Uuid, Uuid>)

  /** How many times `x` occurs in `s`. */
  function Occurrences<T(==)>(s: seq<T>, x: T): (n: nat)
    ensures n <= |s|
    ensures n == 0 <==> x !in s
  {
    if s == [] then 0 else Occurrences(s[..|s| - 1], x) + (if s[|s| - 1] == x then 1 else 0)
  }

  /** The result rows of study `sid`, in table order. */
  function ResultsOfStudy(results: seq<ResultRow>, sid: Uuid): (rs: seq<ResultRow>)
    ensures |rs| <= |results|
    ensures forall r :: r in rs <==> r in results && r.studyId == sid
  {
    if results == [] then []
    else
      var last := results[|results| - 1];
      ResultsOfStudy(results[..|results| - 1], sid) + (if last.studyId == sid then [last] else [])
  }

  /** The response rows of result set `rid`, in table order. */
  function ResponsesOf(responses: seq<ResponseRow>, rid: Uuid): (rs: seq<ResponseRow>)
    ensures |rs| <= |responses|
    ensures forall r :: r in rs <==> r in responses && r.studyResultsId == rid
  {
    if responses == [] then []
    else
      var last := responses[|responses| - 1];
      ResponsesOf(responses[..|responses| - 1], rid) + (if last.studyResultsId == rid then [last] else [])
  }

  /** Filtering by result set distributes over appending rows. */
  lemma {:induction false} ResponsesOfAppend(a: seq<ResponseRow>, b: seq<ResponseRow>, rid: Uuid)
    ensures ResponsesOf(a + b, rid) == ResponsesOf(a, rid) + ResponsesOf(b, rid)
    decreases |b|
  {
    if b == [] {
      assert a + b == a;
    } else {
      var b' := b[..|b| - 1];
      var last := b[|b| - 1];
      assert (a + b)[..|a + b| - 1] == a + b';
      assert (a + b)[|a + b| - 1] == last;
      ResponsesOfAppend(a, b', rid);
      var extra := if last.studyResultsId == rid then [last] else [];
      assert ResponsesOf(a + b, rid) == ResponsesOf(a + b', rid) + extra;
      assert ResponsesOf(b, rid) == ResponsesOf(b', rid) + extra;
    }
  }

  /** The ids of the result sets of study `sid`. */
  function StudyResultIds(results: seq<ResultRow>, sid: Uuid): set<Uuid>
  {
    set r | r in results && r.studyId == sid :: r.id
  }

  /** The responses that belong to some result set of study `sid`, in table order (the join). */
  function ResponsesOfStudy(db: Db, sid: Uuid): (rs: seq<ResponseRow>)
    ensures |rs| <= |db.responses|
    ensures forall r :: r in rs <==> r in db.responses && r.studyResultsId in StudyResultIds(db.results, sid)
  {
    ResponsesIn(db.responses, StudyResultIds(db.results, sid))
  }

  function ResponsesIn(responses: seq<ResponseRow>, ids: set<Uuid>): (rs: seq<ResponseRow>)
    ensures |rs| <= |responses|
    ensures forall r :: r in rs <==> r in responses && r.studyResultsId in ids
  {
    if responses == [] then []
    else
      var last := responses[|responses| - 1];
      ResponsesIn(responses[..|responses| - 1], ids) + (if last.studyResultsId in ids then [last] else [])
  }

  /**
   * A database session. `committed` is what other sessions see; `pending`
   * is this session's view, with the changes it has added but not committed.
   */
  class Session {
    var committed: Db
    var pending: Db

    constructor (db: Db)
      ensures committed == db && pending == db
    {
      committed := db;
      pending := db;
    }

    /** `commit()`: the pending changes become durable. */
    method Commit()
      modifies this
      ensures committed == old(pending) && pending == old(pending)
    {
      committed := pending;
    }

    /** `rollback()`: every uncommitted change is discarded. */
    method Rollback()
      modifies this
      ensures committed == old(committed) && pending == old(committed)
    {
      pending := committed;
    }
  }
}

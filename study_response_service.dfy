/**
 * Storing the answers of a submission: one response row per submitted
 * answer, all in one insert statement followed by one commit.
 */
module StudyResponseService {
  import opened Common
  import opened Store

  /** One submitted answer. */
  datatype ExperimentResponse = ExperimentResponse(imageId: string, answer: int, responseTime: real)

  /** The rows of the insert statement, one per response, in list order. */
  function ResponseRowsFor(studyResultsId: Uuid, responses: seq<ExperimentResponse>): seq<ResponseRow>
  {
    seq(|responses|, i requires 0 <= i < |responses| =>
      ResponseRow(studyResultsId, responses[i].imageId, responses[i].responseTime, responses[i].answer))
  }

  /** The store after the insert. */
  function WithResponses(db: Db, studyResultsId: Uuid, responses: seq<ExperimentResponse>): Db
  {
    db.(responses := db.responses + ResponseRowsFor(studyResultsId, responses))
  }

  /** Rows that all belong to result set `rid` are all of its rows, and none of any other set's. */
  lemma {:induction false} RowsBelongTo(rows: seq<ResponseRow>, rid: Uuid)
    requires forall i :: 0 <= i < |rows| ==> rows[i].studyResultsId == rid
    ensures ResponsesOf(rows, rid) == rows
    ensures forall other :: other != rid ==> ResponsesOf(rows, other) == []
    decreases |rows|
  {
    if rows != [] {
      var front := rows[..|rows| - 1];
      RowsBelongTo(front, rid);
      assert ResponsesOf(rows, rid) == ResponsesOf(front, rid) + [rows[|rows| - 1]];
      forall other | other != rid
        ensures ResponsesOf(rows, other) == []
      {
        assert ResponsesOf(rows, other) == ResponsesOf(front, other);
      }
    }
  }

  /** The result set's rows after the insert: the ones it had, then one per response. */
  lemma StoredOwnResponses(db: Db, rid: Uuid, responses: seq<ExperimentResponse>)
    ensures ResponsesOf(WithResponses(db, rid, responses).responses, rid)
            == ResponsesOf(db.responses, rid) + ResponseRowsFor(rid, responses)
  {
    var rows := ResponseRowsFor(rid, responses);
    RowsBelongTo(rows, rid);
    ResponsesOfAppend(db.responses, rows, rid);
  }

  /**
   * The insert gives the result set exactly one new row per response, in
   * list order, each carrying the response's image, answer and time, and
   * leaves every other result set's rows as they were.
   */
  lemma StoredResponses(db: Db, rid: Uuid, responses: seq<ExperimentResponse>)
    ensures var db' := WithResponses(db, rid, responses);
      && ResponsesOf(db'.responses, rid) == ResponsesOf(db.responses, rid) + ResponseRowsFor(rid, responses)
      && (forall other :: other != rid ==> ResponsesOf(db'.responses, other) == ResponsesOf(db.responses, other))
      && |db'.responses| == |db.responses| + |responses|
      && db'.results == db.results
    ensures forall i :: 0 <= i < |responses| ==>
              var row := ResponseRowsFor(rid, responses)[i];
              row.studyResultsId == rid && row.imageId == responses[i].imageId
              && row.answer == responses[i].answer && row.responseTime == responses[i].responseTime
  {
    var rows := ResponseRowsFor(rid, responses);
    RowsBelongTo(rows, rid);
    StoredOwnResponses(db, rid, responses);
    forall other | other != rid
      ensures ResponsesOf(db.responses + rows, other) == ResponsesOf(db.responses, other)
    {
      ResponsesOfAppend(db.responses, rows, other);
    }
  }

  /**
   * `store_experiment_responses`: executes one insert of all rows and
   * commits. When the statement or the commit raises (`fault`), nothing is
   * inserted and the exception reaches the framework unhandled. An empty
   * list gives an insert without values, whose row has no primary key, so
   * the database rejects it the same way.
   */
  method StoreExperimentResponses(studyResultsId: Uuid, responses: seq<ExperimentResponse>, s: Session, fault: bool)
    returns (err: Option<HttpError>)
    modifies s
    ensures err.None? <==> !fault && responses != []
    ensures err.None? ==> s.committed == WithResponses(old(s.pending), studyResultsId, responses) && s.pending == s.committed
    ensures err.Some? ==> err.value == InternalServerError && s.committed == old(s.committed) && s.pending == old(s.pending)
  {
    var rows := ResponseRowsFor(studyResultsId, responses);
    if fault || responses == [] {
      return Some(InternalServerError);
    }
    s.pending := s.pending.(responses := s.pending.responses + rows);
    s.Commit();
    return None;
  }
}

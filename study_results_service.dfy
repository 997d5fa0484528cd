/**
 * Recording a submission attempt: one result row per (configuration,
 * subject), added to the session without committing; the commit that makes
 * it durable is the one that stores the responses.
 */
module StudyResultsService {
  import opened Common
  import opened Store

  /** The store with one more result row. */
  function WithResult(db: Db, row: ResultRow): Db
  {
    db.(results := db.results + [row])
  }

  /** Adding a result row adds it to its own study's results, and changes no other study's results and no other table. */
  lemma {:induction false} WithResultAddsOneRow(db: Db, row: ResultRow, sid: Uuid)
    ensures ResultsOfStudy(WithResult(db, row).results, sid)
            == ResultsOfStudy(db.results, sid) + (if row.studyId == sid then [row] else [])
    ensures |WithResult(db, row).results| == |db.results| + 1
    ensures WithResult(db, row).responses == db.responses && WithResult(db, row).configs == db.configs
    ensures WithResult(db, row).studies == db.studies && WithResult(db, row).surveys == db.surveys
    ensures WithResult(db, row).files == db.files && WithResult(db, row).learning == db.learning
    ensures WithResult(db, row).waits == db.waits && WithResult(db, row).experiments == db.experiments
    ensures WithResult(db, row).conclusions == db.conclusions && WithResult(db, row).studyOfConfig == db.studyOfConfig
  {
    var rs := db.results + [row];
    assert rs[..|rs| - 1] == db.results;
  }

  /**
   * `add_study_result`: looks up the study of `configId` and adds a result
   * row with the fresh id `newId` (from `uuid4()`) submitted at `now`,
   * returning that id; nothing is committed. When the lookup raises, the
   * session is rolled back and nothing is returned.
   */
  method AddStudyResult(configId: Uuid, subjectId: Uuid, s: Session, newId: Uuid, now: Timestamp) returns (r: Option<Uuid>)
    modifies s
    ensures s.committed == old(s.committed)
    ensures r.Some? <==> configId in old(s.pending).studyOfConfig
    ensures r.Some? ==>
              && r.value == newId
              && s.pending == WithResult(old(s.pending),
                                         ResultRow(newId, old(s.pending).studyOfConfig[configId], configId, subjectId, now))
    ensures r.None? ==> s.pending == old(s.committed)
  {
    if configId !in s.pending.studyOfConfig {
      s.Rollback();
      return None;
    }
    var studyId := s.pending.studyOfConfig[configId];
    var row := ResultRow(newId, studyId, configId, subjectId, now);
    s.pending := s.pending.(results := s.pending.results + [row]);
    return Some(row.id);
  }
}

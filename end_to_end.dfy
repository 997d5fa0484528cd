/**
 * Properties that span services: a saved configuration read back, its
 * study code resolving to it, the expected item count a saved
 * configuration yields, and a submission showing up in its study's summary.
 */
module EndToEnd {
  import opened Common
  import opened Store
  import opened StudyConfigService
  import opened StudyRetrievalService
  import opened StudyResultsService
  import opened StudyResponseService
  import opened ResearcherDashboardService

  /** The files view a saved upload set reads back as: the names that were uploaded. */
  function UploadedNames(files: FileUploadsRequest): FileUploadsView
    requires files.studyDebrief.Some?
  {
    FileUploadsView(
      files.consentForm.filename,
      files.studyInstructions.filename,
      Some(files.learningPhaseList.filename),
      Some(files.experimentPhaseList.filename),
      files.studyDebrief.value.filename)
  }

  /** A configuration saved without a survey reads back with every phase as it was sent and no questions. */
  lemma {:induction false} SavedConfigReadsBack(db: Db, id: Uuid, config: StudyConfigRequest)
    requires config.files.studyDebrief.Some? && Fresh(db, id)
    requires !config.conclusion.hasSurvey
    ensures GetConfigFile(WithConfiguration(db, id, config), id)
            == Ok(ConfigView(UploadedNames(config.files), config.learning, config.wait, config.experiment,
                             ConclusionView(config.conclusion.showResults, false, None)))
  {
    WithConfigurationStoresRequest(db, id, config);
  }

  /**
   * A configuration saved with the survey flag cannot be read back while no
   * survey configuration exists for it, and saving never creates one.
   */
  lemma {:induction false} SavedSurveyConfigFails(db: Db, id: Uuid, config: StudyConfigRequest)
    requires config.files.studyDebrief.Some? && Fresh(db, id)
    requires config.conclusion.hasSurvey
    requires forall s :: s in db.surveys ==> s.studyConfigId != id
    ensures WithConfiguration(db, id, config).surveys == db.surveys
    ensures GetConfigFile(WithConfiguration(db, id, config), id) == Err(InternalServerError)
  {
    WithConfigurationStoresRequest(db, id, config);
  }

  /**
   * The id a save returns (`str(id)`) ends in the study code, and that code
   * finds the saved configuration unless an earlier one shares it.
   */
  lemma SavedCodeResolves(db: Db, id: Uuid, config: StudyConfigRequest)
    requires config.files.studyDebrief.Some? && Fresh(db, id)
    requires forall j :: 0 <= j < |db.configs| ==> Code(db.configs[j]) != Code(id)
    ensures Hyphenated(id)[30..] == Code(id)
    ensures FirstWithCode(WithConfiguration(db, id, config).configs, Hyphenated(id)[30..]) == Some(id)
  {
    HyphenatedEndsWithCode(id);
    var ids := WithConfiguration(db, id, config).configs;
    CodeRoundTrip(ids, |db.configs|);
  }

  /** The expected item count of a saved configuration is the length of the experiment list's file name. */
  lemma ExpectedItemsAfterSave(db: Db, id: Uuid, config: StudyConfigRequest)
    requires config.files.studyDebrief.Some?
    ensures ExpectedItemsForConfig(WithConfiguration(db, id, config).files, id) == |config.files.experimentPhaseList.filename|
  {
  }

  /**
   * A study's first submission, with as many responses as it expects, makes
   * one submission, one complete submission and a completion rate of 100.
   */
  lemma {:induction false} FirstSubmissionComplete(db: Db, row: ResultRow, responses: seq<ExperimentResponse>)
    requires ResultsOfStudy(db.results, row.studyId) == []
    requires ResponsesOf(db.responses, row.id) == []
    requires |responses| == ExpectedItemsOfStudy(db, row.studyId) > 0
    ensures var db' := WithResponses(WithResult(db, row), row.id, responses);
      && TotalSubmissions(db', row.studyId) == 1
      && CompleteSubmissions(db', row.studyId) == 1
      && CompletionRate(CompleteSubmissions(db', row.studyId), TotalSubmissions(db', row.studyId)) == 100.0
  {
    var sid := row.studyId;
    var db1 := WithResult(db, row);
    var db' := WithResponses(db1, row.id, responses);
    FirstResultStored(db, row, responses);
    FirstResponsesStored(db, row, responses);
    assert db'.studies == db.studies && db'.files == db.files;
    var e := |responses|;
    assert [row][..0] == [];
    assert CompleteResults(db', [row], e) == [row];
    CompletionRateBounds(1, 1);
  }

  /** After the first submission the study has that one result. */
  lemma FirstResultStored(db: Db, row: ResultRow, responses: seq<ExperimentResponse>)
    requires ResultsOfStudy(db.results, row.studyId) == []
    ensures ResultsOfStudy(WithResponses(WithResult(db, row), row.id, responses).results, row.studyId) == [row]
  {
    WithResultAddsOneRow(db, row, row.studyId);
  }

  /** After the first submission its result set holds exactly the submitted responses. */
  lemma FirstResponsesStored(db: Db, row: ResultRow, responses: seq<ExperimentResponse>)
    requires ResponsesOf(db.responses, row.id) == []
    ensures ResponsesOf(WithResponses(WithResult(db, row), row.id, responses).responses, row.id) == ResponseRowsFor(row.id, responses)
    ensures ResponseCount(WithResponses(WithResult(db, row), row.id, responses), row.id) == |responses|
  {
    var db1 := WithResult(db, row);
    StoredOwnResponses(db1, row.id, responses);
    assert db1.responses == db.responses;
    assert [] + ResponseRowsFor(row.id, responses) == ResponseRowsFor(row.id, responses);
    assert |ResponseRowsFor(row.id, responses)| == |responses|;
  }

  /** Storing responses for one result set leaves every other result set's response count as it was. */
  lemma OtherCountsUnchanged(db: Db, rid: Uuid, responses: seq<ExperimentResponse>, other: Uuid)
    requires other != rid
    ensures ResponseCount(WithResponses(db, rid, responses), other) == ResponseCount(db, other)
    ensures ResponseCount(WithResponses(db, rid, responses), rid) == ResponseCount(db, rid) + |responses|
  {
    StoredResponses(db, rid, responses);
  }
}

/**
 * Creating a study configuration: one configuration row and its five
 * sub-records (files, learning, wait, experiment, conclusion), all keyed by
 * the new configuration's id, committed together or rolled back together.
 */
module StudyConfigService {
  import opened Common
  import opened Store

  /** An uploaded file: the name the client gave it and its content. */
  datatype Upload = Upload(filename: string, content: Bytes)

  /** The uploads of a configuration form; the debrief upload is optional in the form. */
  datatype FileUploadsRequest = FileUploadsRequest(
    consentForm: Upload,
    studyInstructions: Upload,
    learningPhaseList: Upload,
    experimentPhaseList: Upload,
    studyDebrief: Option<Upload>)

  datatype ConclusionPhaseRequest = ConclusionPhaseRequest(showResults: bool, hasSurvey: bool)

  datatype StudyConfigRequest = StudyConfigRequest(
    files: FileUploadsRequest,
    learning: LearningPhase,
    wait: WaitPhase,
    experiment: ExperimentPhase,
    conclusion: ConclusionPhaseRequest)

  /** The steps of `add_study`, in the order it takes them. */
  datatype Step = AddConfiguration | SaveFiles | SaveLearning | SaveWait | SaveExperiment | SaveConclusion | CommitAll

  /** An exception the environment raises at one step (a lost connection, an unreadable upload, ...). */
  datatype Fault = Fault(step: Step, detail: string)

  /** A stand-in for `str(e)` of a primary-key violation; the driver's full text is not modelled. */
  const DuplicateKeyDetail := "duplicate key value violates unique constraint"

  /** `str(e)` of reading `.filename` from a debrief upload that was not sent. */
  const MissingDebriefDetail := "'NoneType' object has no attribute 'filename'"

  predicate FaultAt(fault: Option<Fault>, step: Step)
  {
    fault.Some? && fault.value.step == step
  }

  /** No configuration and no sub-record uses `id` yet. */
  predicate Fresh(db: Db, id: Uuid)
  {
    id !in db.configs && !SubRecordTaken(db, id)
  }

  predicate SubRecordTaken(db: Db, id: Uuid)
  {
    id in db.files || id in db.learning || id in db.waits || id in db.experiments || id in db.conclusions
  }

  /** Every stored configuration has all five sub-records. */
  predicate AllComplete(db: Db)
  {
    forall id :: id in db.configs ==>
      id in db.files && id in db.learning && id in db.waits && id in db.experiments && id in db.conclusions
  }

  /** The files row `save_file_uploads` builds: three documents with their bytes, and only the names of the two image lists. */
  function FilesRowOf(files: FileUploadsRequest): FilesRow
    requires files.studyDebrief.Some?
  {
    FilesRow(
      files.consentForm.filename, files.consentForm.content,
      files.studyInstructions.filename, files.studyInstructions.content,
      Some(files.learningPhaseList.filename),
      Some(files.experimentPhaseList.filename),
      files.studyDebrief.value.filename, files.studyDebrief.value.content)
  }

  /** The conclusion row `save_conclusion_phase` builds: has-survey goes into column `survey`. */
  function ConclusionRowOf(c: ConclusionPhaseRequest): ConclusionRow
  {
    ConclusionRow(c.showResults, c.hasSurvey)
  }

  /** The store after a successful `add_study` with id `id`. */
  function WithConfiguration(db: Db, id: Uuid, config: StudyConfigRequest): (db': Db)
    requires config.files.studyDebrief.Some?
    ensures |db'.configs| == |db.configs| + 1 && db'.configs[|db.configs|] == id
    ensures id in db'.files && id in db'.learning && id in db'.waits && id in db'.experiments && id in db'.conclusions
  {
    db.(configs := db.configs + [id],
        files := db.files[id := FilesRowOf(config.files)],
        learning := db.learning[id := config.learning],
        waits := db.waits[id := config.wait],
        experiments := db.experiments[id := config.experiment],
        conclusions := db.conclusions[id := ConclusionRowOf(config.conclusion)])
  }

  /** The error `add_study` raises, if any: the first step that fails, in step order. */
  function FirstFailure(db: Db, id: Uuid, config: StudyConfigRequest, fault: Option<Fault>): (e: Option<HttpError>)
    ensures e.Some? ==> e.value.status == 500
    ensures e.Some? ==>
              || e.value.detail == DuplicateKeyDetail
              || e.value.detail == MissingDebriefDetail
              || (fault.Some? && e.value.detail == fault.value.detail)
    ensures fault.Some? && fault.value.step == AddConfiguration ==> e == Some(HttpError(500, fault.value.detail))
  {
    if FaultAt(fault, AddConfiguration) then Some(HttpError(500, fault.value.detail))
    else if id in db.configs then Some(HttpError(500, DuplicateKeyDetail))
    else if FaultAt(fault, SaveFiles) then Some(HttpError(500, fault.value.detail))
    else if config.files.studyDebrief.None? then Some(HttpError(500, MissingDebriefDetail))
    else if FaultAt(fault, SaveLearning) || FaultAt(fault, SaveWait) || FaultAt(fault, SaveExperiment)
         || FaultAt(fault, SaveConclusion) || FaultAt(fault, CommitAll)
    then Some(HttpError(500, fault.value.detail))
    else if SubRecordTaken(db, id) then Some(HttpError(500, DuplicateKeyDetail))
    else None
  }

  /** `add_study` succeeds exactly when nothing faults, the debrief was uploaded and the id is unused. */
  lemma FirstFailureNoneIff(db: Db, id: Uuid, config: StudyConfigRequest, fault: Option<Fault>)
    ensures FirstFailure(db, id, config, fault).None?
        <==> fault.None? && config.files.studyDebrief.Some? && Fresh(db, id)
  {
    if fault.Some? {
      assert FaultAt(fault, fault.value.step);
    }
  }

  /** A successful insert adds the id once, with exactly one row of each kind holding the request's values. */
  lemma {:induction false} WithConfigurationStoresRequest(db: Db, id: Uuid, config: StudyConfigRequest)
    requires config.files.studyDebrief.Some?
    requires Fresh(db, id)
    ensures var db' := WithConfiguration(db, id, config);
      && Occurrences(db'.configs, id) == 1
      && db'.files[id] == FilesRowOf(config.files)
      && db'.learning[id] == config.learning
      && db'.waits[id] == config.wait
      && db'.experiments[id] == config.experiment
      && db'.conclusions[id] == ConclusionRow(config.conclusion.showResults, config.conclusion.hasSurvey)
      && db'.files[id].experimentImageList == Some(config.files.experimentPhaseList.filename)
      && db'.files[id].consentFormBytes == config.files.consentForm.content
  {
    var db' := WithConfiguration(db, id, config);
    assert db'.configs[..|db'.configs| - 1] == db.configs;
    assert Occurrences(db.configs, id) == 0;
  }

  /** A successful insert leaves every other configuration and every other table as it was. */
  lemma WithConfigurationKeepsOthers(db: Db, id: Uuid, config: StudyConfigRequest, other: Uuid)
    requires config.files.studyDebrief.Some?
    requires other != id
    ensures var db' := WithConfiguration(db, id, config);
      && db'.configs[..|db.configs|] == db.configs
      && |db'.configs| == |db.configs| + 1
      && db'.files.Keys == db.files.Keys + {id}
      && db'.learning.Keys == db.learning.Keys + {id}
      && db'.waits.Keys == db.waits.Keys + {id}
      && db'.experiments.Keys == db.experiments.Keys + {id}
      && db'.conclusions.Keys == db.conclusions.Keys + {id}
      && (other in db.files ==> db'.files[other] == db.files[other])
      && (other in db.learning ==> db'.learning[other] == db.learning[other])
      && (other in db.waits ==> db'.waits[other] == db.waits[other])
      && (other in db.experiments ==> db'.experiments[other] == db.experiments[other])
      && (other in db.conclusions ==> db'.conclusions[other] == db.conclusions[other])
      && db'.surveys == db.surveys && db'.studies == db.studies && db'.studyOfConfig == db.studyOfConfig
      && db'.results == db.results && db'.responses == db.responses
  {
  }

  /** Inserting a configuration keeps every configuration complete. */
  lemma WithConfigurationKeepsComplete(db: Db, id: Uuid, config: StudyConfigRequest)
    requires config.files.studyDebrief.Some?
    requires AllComplete(db)
    ensures AllComplete(WithConfiguration(db, id, config))
  {
    var db' := WithConfiguration(db, id, config);
    forall x | x in db'.configs
      ensures x in db'.files && x in db'.learning && x in db'.waits && x in db'.experiments && x in db'.conclusions
    {
      if x != id {
        assert x in db.configs;
      }
    }
  }

  /** `save_file_uploads`: reads the three documents and adds one files row for `id`. */
  method SaveFileUploads(s: Session, id: Uuid, files: FileUploadsRequest) returns (err: Option<HttpError>)
    modifies s
    ensures s.committed == old(s.committed)
    ensures err.None? <==> files.studyDebrief.Some?
    ensures err.Some? ==> err.value == HttpError(500, MissingDebriefDetail) && s.pending == old(s.pending)
    ensures err.None? ==> s.pending == old(s.pending).(files := old(s.pending).files[id := FilesRowOf(files)])
  {
    if files.studyDebrief.None? {
      return Some(HttpError(500, MissingDebriefDetail));
    }
    s.pending := s.pending.(files := s.pending.files[id := FilesRowOf(files)]);
    return None;
  }

  /** `save_learning_phase`: adds one learning row for `id` holding the request's three fields. */
  method SaveLearningPhase(s: Session, id: Uuid, data: LearningPhase)
    modifies s
    ensures s.committed == old(s.committed)
    ensures s.pending == old(s.pending).(learning := old(s.pending).learning[id := data])
  {
    s.pending := s.pending.(learning := s.pending.learning[id := data]);
  }

  /** `save_wait_phase`: adds one wait row for `id`. */
  method SaveWaitPhase(s: Session, id: Uuid, data: WaitPhase)
    modifies s
    ensures s.committed == old(s.committed)
    ensures s.pending == old(s.pending).(waits := old(s.pending).waits[id := data])
  {
    s.pending := s.pending.(waits := s.pending.waits[id := data]);
  }

  /** `save_experiment_phase`: adds one experiment row for `id` holding the request's four fields. */
  method SaveExperimentPhase(s: Session, id: Uuid, data: ExperimentPhase)
    modifies s
    ensures s.committed == old(s.committed)
    ensures s.pending == old(s.pending).(experiments := old(s.pending).experiments[id := data])
  {
    s.pending := s.pending.(experiments := s.pending.experiments[id := data]);
  }

  /** `save_conclusion_phase`: adds one conclusion row for `id`. */
  method SaveConclusionPhase(s: Session, id: Uuid, data: ConclusionPhaseRequest)
    modifies s
    ensures s.committed == old(s.committed)
    ensures s.pending == old(s.pending).(conclusions := old(s.pending).conclusions[id := ConclusionRowOf(data)])
  {
    s.pending := s.pending.(conclusions := s.pending.conclusions[id := ConclusionRowOf(data)]);
  }

  /**
   * `add_study`: adds the configuration row (`newId` is the id the flush
   * assigns), the five sub-records, and commits; on any exception, rolls the
   * session back and raises 500 with the exception's text.
   */
  method AddStudy(s: Session, config: StudyConfigRequest, newId: Uuid, fault: Option<Fault>) returns (r: Result<Uuid>)
    modifies s
    ensures r.Ok? <==> FirstFailure(old(s.pending), newId, config, fault).None?
    ensures r.Ok? ==>
              && r.value == newId
              && s.committed == WithConfiguration(old(s.pending), newId, config)
              && s.pending == s.committed
    ensures r.Err? ==>
              && r.error == FirstFailure(old(s.pending), newId, config, fault).value
              && s.committed == old(s.committed)
              && s.pending == old(s.committed)
  {
    var before := s.pending;
    // conn.add(new_study); flush
    if FaultAt(fault, AddConfiguration) || newId in s.pending.configs {
      r := Err(FirstFailure(before, newId, config, fault).value);
      s.Rollback();
      return;
    }
    s.pending := s.pending.(configs := s.pending.configs + [newId]);

    if FaultAt(fault, SaveFiles) {
      r := Err(HttpError(500, fault.value.detail));
      s.Rollback();
      return;
    }
    var err := SaveFileUploads(s, newId, config.files);
    if err.Some? {
      r := Err(err.value);
      s.Rollback();
      return;
    }

    if FaultAt(fault, SaveLearning) {
      r := Err(HttpError(500, fault.value.detail));
      s.Rollback();
      return;
    }
    SaveLearningPhase(s, newId, config.learning);

    if FaultAt(fault, SaveWait) {
      r := Err(HttpError(500, fault.value.detail));
      s.Rollback();
      return;
    }
    SaveWaitPhase(s, newId, config.wait);

    if FaultAt(fault, SaveExperiment) {
      r := Err(HttpError(500, fault.value.detail));
      s.Rollback();
      return;
    }
    SaveExperimentPhase(s, newId, config.experiment);

    if FaultAt(fault, SaveConclusion) {
      r := Err(HttpError(500, fault.value.detail));
      s.Rollback();
      return;
    }
    SaveConclusionPhase(s, newId, config.conclusion);

    // commit: the flush of the sub-records reports any primary key already taken
    if FaultAt(fault, CommitAll) || SubRecordTaken(before, newId) {
      r := Err(FirstFailure(before, newId, config, fault).value);
      s.Rollback();
      return;
    }
    assert s.pending == WithConfiguration(before, newId, config);
    s.Commit();
    r := Ok(newId);
  }
}

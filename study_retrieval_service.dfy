/**
 * Reading configurations back: the list of configuration ids, resolving a
 * six-character study code by scanning ids, assembling a configuration from
 * its sub-records, and serving a stored document.
 */
module StudyRetrievalService {
  import opened Common
  import opened Store

  /**
   * `get_study_id_list`: the id of every configuration row, one per row, in
   * row order. `fault` is the text of an exception the query raises; the
   * function's `except` turns it into a 404 carrying that text.
   */
  method GetStudyIdList(db: Db, fault: Option<string>) returns (r: Result<seq<Uuid>>)
    ensures r.Err? <==> fault.Some?
    ensures r.Err? ==> r.error == HttpError(404, fault.value)
    ensures r.Ok? ==> |r.value| == |db.configs| && forall i :: 0 <= i < |r.value| ==> r.value[i] == db.configs[i]
  {
    if fault.Some? {
      return Err(HttpError(404, fault.value));
    }
    var ids := [];
    for i := 0 to |db.configs|
      invariant ids == db.configs[..i]
    {
      ids := ids + [db.configs[i]];
    }
    r := Ok(ids);
  }

  /** The position of the first id in `ids` whose code is `code`, or `|ids|` when there is none. */
  function FirstIndexWithCode(ids: seq<Uuid>, code: string): (k: nat)
    ensures k <= |ids|
    ensures forall j :: 0 <= j < k ==> Code(ids[j]) != code
    ensures k < |ids| ==> Code(ids[k]) == code
  {
    if ids == [] then 0
    else if Code(ids[0]) == code then 0
    else 1 + FirstIndexWithCode(ids[1..], code)
  }

  /** The id a study code resolves to: the first one, in scan order, that ends with the code. */
  function FirstWithCode(ids: seq<Uuid>, code: string): (r: Option<Uuid>)
  {
    var k := FirstIndexWithCode(ids, code);
    if k < |ids| then Some(ids[k]) else None
  }

  /**
   * `get_study_id`: scans the configurations and returns the first id whose
   * last six hex digits are `studyCode`, or None; an exception the query
   * raises (`fault`) becomes a 404 carrying its text.
   */
  method GetStudyId(studyCode: string, db: Db, fault: Option<string>) returns (r: Result<Option<Uuid>>)
    ensures r.Err? <==> fault.Some?
    ensures r.Err? ==> r.error == HttpError(404, fault.value)
    ensures r.Ok? ==> r.value == FirstWithCode(db.configs, studyCode)
  {
    if fault.Some? {
      return Err(HttpError(404, fault.value));
    }
    for i := 0 to |db.configs|
      invariant forall j :: 0 <= j < i ==> Code(db.configs[j]) != studyCode
    {
      if Code(db.configs[i]) == studyCode {
        return Ok(Some(db.configs[i]));
      }
    }
    return Ok(None);
  }

  /** What a code resolves to: an id that carries it, before which no id carries it; or nothing when no id carries it. */
  lemma FirstWithCodeMeaning(ids: seq<Uuid>, code: string)
    ensures FirstWithCode(ids, code).None? <==> forall j :: 0 <= j < |ids| ==> Code(ids[j]) != code
    ensures FirstWithCode(ids, code).Some? ==>
              exists k :: 0 <= k < |ids| && ids[k] == FirstWithCode(ids, code).value && Code(ids[k]) == code
                          && forall j :: 0 <= j < k ==> Code(ids[j]) != code
  {
  }

  /**
   * Round trip through the code: the code of a stored configuration always
   * resolves to an id with the same code, and to that very configuration
   * when no configuration scanned before it shares the code.
   */
  lemma CodeRoundTrip(ids: seq<Uuid>, k: nat)
    requires k < |ids|
    ensures FirstWithCode(ids, Code(ids[k])).Some?
    ensures Code(FirstWithCode(ids, Code(ids[k])).value) == Code(ids[k])
    ensures (forall j :: 0 <= j < k ==> Code(ids[j]) != Code(ids[k])) ==> FirstWithCode(ids, Code(ids[k])) == Some(ids[k])
  {
    var f := FirstIndexWithCode(ids, Code(ids[k]));
    assert f <= k;
  }

  /** A configuration whose code an earlier, different configuration shares can never be reached by its code. */
  lemma ShadowedByEarlierCode(ids: seq<Uuid>, j: nat, k: nat)
    requires j < k < |ids|
    requires Code(ids[j]) == Code(ids[k])
    requires ids[k] !in ids[..k]
    ensures FirstIndexWithCode(ids, Code(ids[k])) <= j
    ensures FirstWithCode(ids, Code(ids[k])) != Some(ids[k])
  {
    var f := FirstIndexWithCode(ids, Code(ids[k]));
    assert f <= j;
    assert ids[f] in ids[..k];
  }

  /** A code that is not six lower-case hex digits resolves to nothing. */
  lemma MalformedCodeNeverResolves(ids: seq<Uuid>, code: string)
    requires |code| != 6 || exists i :: 0 <= i < |code| && !IsLowerHex(code[i])
    ensures FirstWithCode(ids, code) == None
  {
    var f := FirstIndexWithCode(ids, code);
  }

  /** The files part of a configuration response: names only, no bytes. */
  datatype FileUploadsView = FileUploadsView(
    consentForm: string,
    studyInstruction: string,
    learningImageList: Option<string>,
    experimentImageList: Option<string>,
    studyDebrief: string)

  datatype ConclusionView = ConclusionView(showResults: bool, hasSurvey: bool, questions: Option<seq<string>>)

  /** `StudyConfigResponse`: the whole configuration as served to a client. */
  datatype ConfigView = ConfigView(
    files: FileUploadsView,
    learning: LearningPhase,
    wait: WaitPhase,
    experiment: ExperimentPhase,
    conclusion: ConclusionView)

  const MissingFiles := HttpError(500, "Missing file upload data.")
  const MissingPhase := HttpError(500, "Missing phase configuration.")

  /** The survey configuration the `demographics` relationship loads: the first one for `configId`. */
  function SurveyOf(surveys: seq<SurveyRow>, configId: Uuid): (r: Option<SurveyRow>)
    ensures r.Some? ==> r.value in surveys && r.value.studyConfigId == configId
    ensures r.None? ==> forall s :: s in surveys ==> s.studyConfigId != configId
  {
    if surveys == [] then None
    else if surveys[0].studyConfigId == configId then Some(surveys[0])
    else SurveyOf(surveys[1..], configId)
  }

  function FileUploadsViewOf(f: FilesRow): FileUploadsView
  {
    FileUploadsView(f.consentForm, f.studyInstructions, f.learningImageList, f.experimentImageList, f.studyDebrief)
  }

  /**
   * `get_config_file`: 404 when no configuration has the id; then 500 when
   * the files row is missing; then 500 when learning, wait or experiment is
   * missing; otherwise the sub-records copied into the response. A second
   * row with the same id (`scalar_one_or_none`), a missing conclusion, or a
   * survey flag with no survey row raise exceptions no handler catches.
   */
  function GetConfigFile(db: Db, id: Uuid): (r: Result<ConfigView>)
    ensures id !in db.configs <==> r == Err(StudyNotFound)
    ensures id in db.configs && Occurrences(db.configs, id) == 1 && id !in db.files ==> r == Err(MissingFiles)
    ensures Occurrences(db.configs, id) == 1 && id in db.files ==>
              (r == Err(MissingPhase) <==> id !in db.learning || id !in db.waits || id !in db.experiments)
    ensures r.Ok? ==>
              && Occurrences(db.configs, id) == 1
              && id in db.files && id in db.learning && id in db.waits && id in db.experiments && id in db.conclusions
              && r.value.files == FileUploadsViewOf(db.files[id])
              && r.value.learning == db.learning[id]
              && r.value.wait == db.waits[id]
              && r.value.experiment == db.experiments[id]
              && r.value.conclusion.showResults == db.conclusions[id].showResults
              && r.value.conclusion.hasSurvey == db.conclusions[id].survey
              && (if db.conclusions[id].survey
                  then SurveyOf(db.surveys, id).Some? && r.value.conclusion.questions == Some(SurveyOf(db.surveys, id).value.questions)
                  else r.value.conclusion.questions == None)
  {
    var n := Occurrences(db.configs, id);
    if n == 0 then Err(StudyNotFound)
    else if n > 1 then Err(InternalServerError)
    else if id !in db.files then Err(MissingFiles)
    else if id !in db.learning || id !in db.waits || id !in db.experiments then Err(MissingPhase)
    else if id !in db.conclusions then Err(InternalServerError)
    else
      var c := db.conclusions[id];
      var survey := SurveyOf(db.surveys, id);
      if c.survey && survey.None? then Err(InternalServerError)
      else
        Ok(ConfigView(
          FileUploadsViewOf(db.files[id]),
          db.learning[id],
          db.waits[id],
          db.experiments[id],
          ConclusionView(c.showResults, c.survey, if c.survey then Some(survey.value.questions) else None)))
  }

  /** The three documents stored with their bytes. */
  datatype Document = ConsentForm | StudyInstructions | StudyDebrief

  function NameOf(f: FilesRow, doc: Document): string
  {
    match doc
    case ConsentForm => f.consentForm
    case StudyInstructions => f.studyInstructions
    case StudyDebrief => f.studyDebrief
  }

  function BytesOf(f: FilesRow, doc: Document): Bytes
  {
    match doc
    case ConsentForm => f.consentFormBytes
    case StudyInstructions => f.studyInstructionsBytes
    case StudyDebrief => f.studyDebriefBytes
  }

  /** A streamed file: its bytes, media type and Content-Disposition header. */
  datatype FileResponse = FileResponse(body: Bytes, mediaType: string, disposition: string)

  /** The Content-Disposition header that serves a file inline under its stored name. */
  function InlineDisposition(filename: string): string
  {
    "inline; filename=\"" + filename + "\""
  }

  /** Reads the file name back out of an inline Content-Disposition header. */
  function DispositionFilename(header: string): string
    requires |header| >= 19
  {
    header[18..|header| - 1]
  }

  /** The header keeps the stored name exactly: it can be read back out. */
  lemma DispositionRoundTrip(filename: string)
    ensures |InlineDisposition(filename)| == |filename| + 19
    ensures DispositionFilename(InlineDisposition(filename)) == filename
  {
    var h := InlineDisposition(filename);
    assert h[18..|h| - 1] == filename;
  }

  /** The text of the "File not found" exception once it is turned into a string. */
  lemma FileNotFoundText()
    ensures Describe(HttpError(404, "File not found")) == "404: File not found"
  {
    var e := HttpError(404, "File not found");
    NotFoundDigits();
    DescribeParts(e);
    NotFoundJoined();
  }

  /** `str(e)` of an HTTP exception, written out as its three parts. */
  lemma DescribeParts(e: HttpError)
    ensures Describe(e) == DecimalString(e.status) + ": " + e.detail
  {
  }

  /** The three parts of the "File not found" text, joined. */
  lemma NotFoundJoined()
    ensures "404" + ": " + "File not found" == "404: File not found"
  {
  }

  /** The status 404 is written as the three characters "404". */
  lemma NotFoundDigits()
    ensures DecimalString(404) == "404"
  {
    assert DigitChar(4) == '4' && DigitChar(0) == '0';
    assert DecimalString(4) == "4";
    assert DecimalString(40) == DecimalString(4) + ['0'];
    assert DecimalString(404) == DecimalString(40) + ['4'];
  }

  /**
   * `get_file_from_db` for one of the documents: no files row raises 404
   * "File not found", which the function's own `except` turns into a 404
   * whose detail is the text of that exception; otherwise the stored bytes,
   * served inline under the stored name.
   */
  function GetFileFromDb(db: Db, id: Uuid, doc: Document, mediaType: string): (r: Result<FileResponse>)
    ensures r.Err? <==> id !in db.files
    ensures r.Err? ==> r.error == HttpError(404, "404: File not found")
    ensures r.Ok? ==>
              && r.value.body == BytesOf(db.files[id], doc)
              && r.value.mediaType == mediaType
              && r.value.disposition == InlineDisposition(NameOf(db.files[id], doc))
              && |r.value.disposition| >= 19
              && DispositionFilename(r.value.disposition) == NameOf(db.files[id], doc)
  {
    if id !in db.files then
      FileNotFoundText();
      Err(HttpError(404, Describe(HttpError(404, "File not found"))))
    else
      var f := db.files[id];
      DispositionRoundTrip(NameOf(f, doc));
      Ok(FileResponse(BytesOf(f, doc), mediaType, InlineDisposition(NameOf(f, doc))))
  }

  /** `str(MultipleResultsFound)`. */
  const MultipleRowsDetail := "Multiple rows were found when one or none was required"

  /** The ids of the survey configurations of `configId`, in table order. */
  function SurveyIdsOf(surveys: seq<SurveyRow>, configId: Uuid): (ids: seq<Uuid>)
    ensures |ids| <= |surveys|
    ensures forall s :: s in surveys && s.studyConfigId == configId ==> s.id in ids
    ensures forall x :: x in ids ==> exists s :: s in surveys && s.studyConfigId == configId && s.id == x
  {
    if surveys == [] then []
    else
      var last := surveys[|surveys| - 1];
      SurveyIdsOf(surveys[..|surveys| - 1], configId) + (if last.studyConfigId == configId then [last.id] else [])
  }

  /**
   * `get_survey_id`: the one survey id of a configuration, or None. Any
   * exception is turned into a 404 carrying its text: one the query raises
   * (`fault`), or the one `scalar_one_or_none` raises when there are several.
   */
  function GetSurveyId(db: Db, configId: Uuid, fault: Option<string>): (r: Result<Option<Uuid>>)
    ensures fault.Some? ==> r == Err(HttpError(404, fault.value))
    ensures fault.None? ==>
              && (r == Ok(None) <==> forall s :: s in db.surveys ==> s.studyConfigId != configId)
              && (r.Ok? && r.value.Some? ==> exists s :: s in db.surveys && s.studyConfigId == configId && s.id == r.value.value)
              && (r.Err? <==> |SurveyIdsOf(db.surveys, configId)| > 1)
              && (r.Err? ==> r.error == HttpError(404, MultipleRowsDetail))
  {
    if fault.Some? then Err(HttpError(404, fault.value))
    else
      var ids := SurveyIdsOf(db.surveys, configId);
      if |ids| == 0 then Ok(None)
      else if |ids| == 1 then
        assert ids[0] in ids;
        Ok(Some(ids[0]))
      else
        assert ids[0] in ids;
        Err(HttpError(404, MultipleRowsDetail))
  }
}

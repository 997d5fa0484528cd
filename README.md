# Study management backend — a verified model of its core

The backend runs timed face-perception studies. A researcher saves a study
configuration: five sub-records holding the learning, wait, experiment and
conclusion phases and the uploaded files. Subjects find a configuration by a
six-character study code and submit one result set with one response per
image. The researcher dashboard counts, summarises, pages and exports those
results, and only for studies the caller owns. A role gate stands in front of
every researcher route.

This project models that core in Dafny:

- The database is the datatype `Store.Db`: ordered sequences of configuration
  ids, results, responses and studies, plus maps from configuration id to each
  sub-record.
- An ORM session is the class `Store.Session`. It holds a committed and a
  pending state. Commit makes the pending state durable; rollback restores the
  committed one.
- Ids are 32 lowercase hex characters (`Common.Uuid`). The study code is the
  last six characters. `str(uuid)` is the hyphenated form (`Common.Hyphenated`).
- Errors are `Result`/`Option` values carrying the HTTP status and detail the
  code raises. An exception no handler catches is
  `Common.InternalServerError`.
- Exceptions raised by the database or by reading an upload come in as a
  `fault` parameter. In `add_study` and `store_experiment_responses` a fault
  fails the operation with a 500. In `get_study_id_list`, `get_study_id` and
  `get_survey_id` it becomes a 404 whose detail is the exception's text. The
  id a flush or `uuid4()` assigns and the time `datetime.now()` returns are
  parameters too.

Modules follow the source files:

- `StudyConfigService`: `add_study` and its five `save_*` helpers. The whole
  insert either happens or is rolled back.
- `StudyRetrievalService`: the id list, code lookup, configuration assembly,
  file serving and survey lookup.
- `StudyResultsService`: adding a result row.
- `StudyResponseService`: the bulk insert of responses.
- `ResearcherDashboardService`: listing, the ownership gate, the summary
  (counts, completion rate, answer histogram) and offset paging.
- `ResearcherRoutes`: the role and ownership gates in front of the dashboard,
  and the CSV exports.
- `UserManager`: the role gate and the role changes.
- `EndToEnd`: properties that cross services.

Where the repository's design notes and its code disagree, the model follows
the code:

- The files row stores the experiment image list's upload FILENAME, a string
  (services/study_config_service.py:114). So `_expected_items_for_config`
  counts that name's characters (`EndToEnd.ExpectedItemsAfterSave`).
- The save route returns the full configuration id, not the study code
  (routes/study_config_routes.py:54-55). The code is reachable only as the
  id's suffix (`EndToEnd.SavedCodeResolves`).
- `add_study` never creates a survey configuration. A configuration saved
  with `has_survey` therefore cannot be read back
  (`EndToEnd.SavedSurveyConfigFails`).

## Model

| member | source | states |
|---|---|---|
| `Common.Code` | services/study_retrieval_service.py:46 | the study code has six lowercase hex characters, and the id is its first 26 characters followed by the code |
| `Common.HyphenatedEndsWithCode` | routes/researcher_routes.py:178 | `str(id)` has 36 characters and its last six are `Code(id)`, the id's last six hex characters |
| `Common.Hyphenated` | routes/researcher_routes.py:99-100 | `str(id)` has 36 characters: hyphens at positions 8, 13, 18 and 23, lowercase hex everywhere else |
| `Common.Describe` | services/study_retrieval_service.py:101-102 | `str()` of an HTTP exception is decimal digits that denote its status, then ": ", then its detail |
| `Common.HyphenatedRoundTrip` | routes/researcher_routes.py:99-100 | removing the hyphens from `str(id)` gives the id back |
| `Enums.EnumValuesRoundTrip` | models/enums.py:4-10 | parsing the stored value of each display method and response method gives that method back |
| `Store.ResultsOfStudy` | services/researcher_dashboard_service.py:66-70 | a study's results are exactly the result rows carrying its id |
| `Store.ResponsesOf` | services/researcher_dashboard_service.py:143-149 | a result set's responses are exactly the response rows carrying its id |
| `Store.ResponsesOfAppend` | services/study_response_service.py:12-21 | filtering appended rows by result set is filtering each part and appending |
| `Store.ResponsesOfStudy` | services/researcher_dashboard_service.py:106-111 | the responses joined to a study are exactly those whose result set belongs to the study |
| `Store.Session.Commit` | services/study_config_service.py:44 | the pending state becomes the committed state |
| `Store.Session.Rollback` | services/study_config_service.py:48 | pending changes are discarded and the committed state is kept |
| `StudyConfigService.WithConfiguration` | services/study_config_service.py:34-42 | the id is appended to the configuration list, and each of the five tables gets a row for it |
| `StudyConfigService.FirstFailure` | services/study_config_service.py:33-49 | every failure is a 500 whose detail is the duplicate-key text, the missing-debrief text or the raised exception's text; a fault in the first insert is reported with its own text |
| `StudyConfigService.FirstFailureNoneIff` | services/study_config_service.py:33-49 | `add_study` fails iff some step raises, the debrief is missing, or the id or one of its sub-record keys is taken |
| `StudyConfigService.WithConfigurationStoresRequest` | services/study_config_service.py:38-42 | after the insert, the id occurs once and each of the five tables holds one row for it with the request's values; the image lists keep only their names |
| `StudyConfigService.WithConfigurationKeepsOthers` | services/study_config_service.py:34-42 | earlier configurations keep their order and sub-records, each sub-record table gains exactly the new id as a key, and every other table is unchanged |
| `StudyConfigService.WithConfigurationKeepsComplete` | services/study_config_service.py:33-45 | if every configuration has its five sub-records before the insert, that still holds after it |
| `StudyConfigService.SaveFileUploads` | services/study_config_service.py:102-118 | adds the files row (names and bytes of three documents, names of the two lists); a missing debrief raises the attribute error and adds nothing |
| `StudyConfigService.SaveLearningPhase` | services/study_config_service.py:53-63 | adds the learning row for the id holding the request unchanged, and nothing else |
| `StudyConfigService.SaveWaitPhase` | services/study_config_service.py:66-73 | adds the wait row for the id holding the request unchanged, and nothing else |
| `StudyConfigService.SaveExperimentPhase` | services/study_config_service.py:76-87 | adds the experiment row for the id holding the request unchanged, and nothing else |
| `StudyConfigService.SaveConclusionPhase` | services/study_config_service.py:90-99 | adds the conclusion row; `has_survey` goes into column `survey` |
| `StudyConfigService.AddStudy` | services/study_config_service.py:23-49 | on success returns the new id and commits exactly the configuration and its five rows; on failure raises 500 with the first failure's detail and leaves the committed state as it was |
| `StudyRetrievalService.GetStudyIdList` | services/study_retrieval_service.py:25-36 | one id per configuration row, in row order, and nothing else; a database exception becomes a 404 with its text |
| `StudyRetrievalService.FirstIndexWithCode` | services/study_retrieval_service.py:45-47 | the scan stops at the first id whose code matches; every earlier id has a different code |
| `StudyRetrievalService.GetStudyId` | services/study_retrieval_service.py:39-49 | the loop returns the first configuration id whose code is the given one, or None; a database exception becomes a 404 with its text |
| `StudyRetrievalService.FirstWithCodeMeaning` | services/study_retrieval_service.py:45-47 | None iff no id has the code; otherwise a stored id with that code, and no earlier id has it |
| `StudyRetrievalService.CodeRoundTrip` | services/study_retrieval_service.py:45-47 | looking up a stored id's code finds an id with the same code, and finds that id when no earlier id shares the code |
| `StudyRetrievalService.ShadowedByEarlierCode` | services/study_retrieval_service.py:45-47 | when an earlier id shares the code, the lookup never returns the later id |
| `StudyRetrievalService.MalformedCodeNeverResolves` | services/study_retrieval_service.py:40-47 | a code that is not six lowercase hex characters matches nothing |
| `StudyRetrievalService.SurveyOf` | services/study_retrieval_service.py:183 | the survey loaded for a configuration belongs to it, and None means it has none |
| `StudyRetrievalService.GetConfigFile` | services/study_retrieval_service.py:147-185 | 404 iff the id is not stored, then 500 for missing files, then 500 for a missing phase; on success every field is copied from the sub-records, and questions are the survey's iff `has_survey` |
| `StudyRetrievalService.DispositionRoundTrip` | services/study_retrieval_service.py:99 | the inline disposition header keeps the stored name exactly: it reads back out |
| `StudyRetrievalService.FileNotFoundText` | services/study_retrieval_service.py:93-102 | the re-raised 404's detail is the text of the inner exception, "404: File not found" |
| `StudyRetrievalService.GetFileFromDb` | services/study_retrieval_service.py:84-102 | 404 iff no files row; otherwise the stored bytes and media type, with the stored name in the header |
| `StudyRetrievalService.SurveyIdsOf` | services/study_retrieval_service.py:193-196 | the selected ids are exactly those of the configuration's survey rows |
| `StudyRetrievalService.GetSurveyId` | services/study_retrieval_service.py:188-201 | None iff no survey row for the configuration, an owned survey id when there is one, and 404 iff there are several; a database exception becomes a 404 with its text |
| `StudyResultsService.WithResultAddsOneRow` | services/study_results_service.py:18-25 | the new row joins its own study's results and no other study's; no other table changes |
| `StudyResultsService.AddStudyResult` | services/study_results_service.py:13-29 | returns the fresh id iff the config's study is found, after adding that one uncommitted row; otherwise rolls back and returns None |
| `StudyResponseService.RowsBelongTo` | services/study_response_service.py:12-20 | rows built for one result set are all of that set's rows and none of any other's |
| `StudyResponseService.StoredOwnResponses` | services/study_response_service.py:12-21 | after the insert, the result set's rows are its earlier rows followed by one row per response |
| `StudyResponseService.StoredResponses` | services/study_response_service.py:12-21 | one row per response in list order, each copying image, answer and time under the given id; other result sets and the results table are unchanged |
| `StudyResponseService.StoreExperimentResponses` | services/study_response_service.py:7-22 | commits exactly those rows; an exception or an empty list (an insert without values) fails with 500 and changes nothing |
| `ResearcherDashboardService.ExpectedItemsOfList` | services/researcher_dashboard_service.py:12-19 | the expected items are the length of the configuration's image list, and 0 without a files row or with a null list |
| `ResearcherDashboardService.StudiesOf` | services/researcher_dashboard_service.py:22-32 | the listed studies are exactly the researcher's |
| `ResearcherDashboardService.LastSubmitted` | services/researcher_dashboard_service.py:27 | None iff there are no results; otherwise the latest submission time among them |
| `ResearcherDashboardService.ConfigIdsOf` | services/researcher_dashboard_service.py:37 | exactly the configuration ids that some listed study has |
| `ResearcherDashboardService.ExpectedItemsMap` | services/researcher_dashboard_service.py:36-44 | the map has exactly the listed configurations that have a files row, each with its expected item count |
| `ResearcherDashboardService.ExpectedLookup` | services/researcher_dashboard_service.py:52 | `exp_map.get(cfg, 0)` is the study's expected item count, and 0 without a configuration or files row |
| `ResearcherDashboardService.ItemsFor` | services/researcher_dashboard_service.py:46-55 | one list item per study row, in order |
| `ResearcherDashboardService.ListStudiesForResearcher` | services/researcher_dashboard_service.py:21-55 | the items are those of the researcher's studies, in table order |
| `ResearcherDashboardService.ListCoversOwnedStudies` | services/researcher_dashboard_service.py:29-52 | every owned study is listed, a study without results shows 0 submissions, and one without files shows 0 expected items |
| `ResearcherDashboardService.OwnedRowExists` | services/researcher_dashboard_service.py:58-60 | the query finds a row iff a study has that id and that researcher |
| `ResearcherDashboardService.EnsureOwnership` | services/researcher_dashboard_service.py:57-62 | passes iff the caller owns the study, and otherwise 404 "Study not found" |
| `ResearcherDashboardService.ConfigOfStudy` | services/researcher_dashboard_service.py:76 | the configuration of the first study row with that id (`scalar`), and none without such a row |
| `ResearcherDashboardService.PerResultCounts` | services/researcher_dashboard_service.py:82-90 | one positive count per result set that has responses: as many counts as results with a non-zero response count |
| `ResearcherDashboardService.CompleteResults` | services/researcher_dashboard_service.py:79-93 | exactly the results whose response count equals the expected count |
| `ResearcherDashboardService.CountMatches` | services/researcher_dashboard_service.py:91-93 | the loop counts exactly the grouped counts equal to the expected item count |
| `ResearcherDashboardService.CountEqualPerResult` | services/researcher_dashboard_service.py:91-93 | counting groups whose count is the expected one is counting complete results |
| `ResearcherDashboardService.CompleteAtMostTotal` | services/researcher_dashboard_service.py:66-93 | complete submissions are at most the total, and 0 when the expected count is 0 |
| `ResearcherDashboardService.CompletionRate` | services/researcher_dashboard_service.py:95 | 0 with no submissions; otherwise rate times total equals 100 times the complete count |
| `ResearcherDashboardService.CompletionRateBounds` | services/researcher_dashboard_service.py:95 | the rate lies in [0, 100], is 0 with no submissions, and is 100 when every submission is complete |
| `ResearcherDashboardService.AnswersOf` | services/researcher_dashboard_service.py:107 | the answers of the rows, one per row, in order |
| `ResearcherDashboardService.HistogramCounts` | services/researcher_dashboard_service.py:105-112 | the histogram's keys are exactly the answers given, each mapped to its number of occurrences |
| `ResearcherDashboardService.Distinct` | services/researcher_dashboard_service.py:110 | the distinct answers: each answer once |
| `ResearcherDashboardService.HistogramSum` | services/researcher_dashboard_service.py:105-112 | the histogram's counts sum to the number of responses |
| `ResearcherDashboardService.SummarizeStudy` | services/researcher_dashboard_service.py:64-122 | total, expected and complete counts as defined, complete at most total, the rate in [0, 100], and the histogram of the study's answers |
| `ResearcherDashboardService.InsertDescPerm` | services/researcher_dashboard_service.py:134 | inserting a row into the order keeps every row |
| `ResearcherDashboardService.InsertDescSorted` | services/researcher_dashboard_service.py:134 | inserting a row keeps the rows newest first |
| `ResearcherDashboardService.SortDescSorted` | services/researcher_dashboard_service.py:134 | ordering by submission time descending is a sorted permutation |
| `ResearcherDashboardService.Offset` | services/researcher_dashboard_service.py:130 | page 1 or below starts at 0, and a non-negative page size never gives a negative offset |
| `ResearcherDashboardService.PageOf` | services/researcher_dashboard_service.py:135 | LIMIT/OFFSET: at most `page_size` rows, the ones from the offset on, empty past the end |
| `ResearcherDashboardService.PagesConcatenate` | services/researcher_dashboard_service.py:130-135 | pages 1 to k, concatenated, are the first k pages' worth of rows: no row is skipped or repeated |
| `ResearcherDashboardService.ViewsOf` | services/researcher_dashboard_service.py:149 | one response view per row, in order, holding its image, answer and time |
| `ResearcherDashboardService.ResponsesByResult` | services/researcher_dashboard_service.py:141-149 | the map has exactly the page's result ids, each with the views of its own responses in table order |
| `ResearcherDashboardService.PageRowsFacts` | services/researcher_dashboard_service.py:130-137 | a page has at most `page_size` rows, all of the study, newest first |
| `ResearcherDashboardService.FirstPage` | services/researcher_dashboard_service.py:130-135 | page 1 (or below) is the newest `page_size` results |
| `ResearcherDashboardService.ItemsFromMap` | services/researcher_dashboard_service.py:149-157 | looking each row's responses up in the map gives exactly that row's entry |
| `ResearcherDashboardService.PageItemsFacts` | services/researcher_dashboard_service.py:130-157 | a page's entries match its rows one for one (id, subject, time, own responses), at most `page_size` of them, all of the study, newest first |
| `ResearcherDashboardService.PagedResultsOf` | services/researcher_dashboard_service.py:124-160 | the result is exactly the page's entries with page, size and the study's total; each item is its row with exactly its own responses; items are newest first; a negative size is a 500 |
| `ResearcherRoutes.GetMyStudies` | routes/researcher_routes.py:42-48 | 403 for a non-researcher, otherwise the caller's own studies |
| `ResearcherRoutes.GetStudySummary` | routes/researcher_routes.py:51-58 | 403, then 404 unless owned, and data iff both gates pass; the data is the full summary: total, expected and complete counts, the completion rate in [0, 100], and the answer histogram |
| `ResearcherRoutes.GetStudyResults` | routes/researcher_routes.py:61-70 | 403, then 404 unless owned, then exactly the page: the entries of its rows newest first, the echoed page and size, and the study's total |
| `ResearcherRoutes.ItemRows` | routes/researcher_routes.py:96-106 | one data row per response of a result, in list order |
| `ResearcherRoutes.FlattenRowsCount` | routes/researcher_routes.py:95-106 | there is one data row per (result, response) pair |
| `ResearcherRoutes.FlattenRowsContents` | routes/researcher_routes.py:95-106 | every data row is some result's response, and every result's response has its row |
| `ResearcherRoutes.DataRowIds` | routes/researcher_routes.py:97-105 | a data row's first two cells read back as the result's and the subject's ids |
| `ResearcherRoutes.WriteResultRows` | routes/researcher_routes.py:83-106 | the header, then each result's rows in turn: 1 + total responses rows |
| `ResearcherRoutes.ExportResultsCsv` | routes/researcher_routes.py:73-108 | 403, then 404 unless owned; otherwise the header, then the rows of the entries of page 1 at the export page size, in page order |
| `ResearcherRoutes.ExportReadsAllResults` | routes/researcher_routes.py:82 | below ten million results the export page is every result of the study, newest first |
| `ResearcherRoutes.ExportRows` | routes/researcher_routes.py:165-175 | one row per response of the result set, in list order |
| `ResearcherRoutes.ExportFileName` | routes/researcher_routes.py:178 | the last six characters of `str(study_id)`, which are the last six hex characters of the study's id (not the configuration code subjects enter), followed by `-results.csv` |
| `ResearcherRoutes.WriteExportRows` | routes/researcher_routes.py:192-214 | the header, then each entry's rows in entry order |
| `ResearcherRoutes.ExportStudyResultsById` | routes/researcher_routes.py:146-182 | 403 or the helper's error; otherwise the header and one row per response, in a file named after the last six hex characters of the study's id (not the configuration code subjects enter) |
| `ResearcherRoutes.ExportAll` | routes/researcher_routes.py:185-221 | 403 or the helper's error; otherwise the header and every entry's rows, in a file named after the caller's id |
| `ResearcherRoutes.AllExportRowsAppend` | routes/researcher_routes.py:203-214 | exporting two lists of entries is exporting each and concatenating |
| `UserManager.RequireRole` | auth/user_manager.py:56-62 | the user, unchanged, iff the role is allowed; otherwise 403 "Forbidden" |
| `UserManager.WithRole` | auth/user_manager.py:35-42 | only the user's role changes; every other user is untouched |
| `UserManager.RoleChangeGate` | auth/user_manager.py:35-62 | after a change the user passes the gate for the new role and fails it for any other single role |
| `UserManager.RoleChangeIdempotent` | auth/user_manager.py:35-42 | applying a role change twice is applying it once |
| `UserManager.PromoteThenDemote` | auth/user_manager.py:35-42 | demoting a promoted user leaves the table as if they had only been made a researcher |
| `UserManager.UserDb.SetRole` | auth/user_manager.py:36 | stores and returns the user with the new role |
| `UserManager.UserDb.OnAfterRegister` | auth/user_manager.py:21-22 | a new user becomes a researcher |
| `UserManager.UserDb.PromoteToAdmin` | auth/user_manager.py:35-36 | the user becomes an admin |
| `UserManager.UserDb.PromoteToStaff` | auth/user_manager.py:38-39 | the user becomes staff |
| `UserManager.UserDb.DemoteUser` | auth/user_manager.py:41-42 | the user becomes a researcher again |
| `EndToEnd.SavedConfigReadsBack` | services/study_retrieval_service.py:158-183 | a configuration saved without a survey reads back exactly as it was sent |
| `EndToEnd.SavedSurveyConfigFails` | services/study_retrieval_service.py:183 | a configuration saved with the survey flag cannot be read back |
| `EndToEnd.SavedCodeResolves` | routes/study_config_routes.py:54-55 | the returned id ends in the study code, and that code finds the saved configuration |
| `EndToEnd.ExpectedItemsAfterSave` | services/researcher_dashboard_service.py:12-19 | a saved configuration expects as many items as its experiment list's file name has characters |
| `EndToEnd.FirstSubmissionComplete` | services/researcher_dashboard_service.py:79-95 | a first submission with the expected number of responses gives one complete submission and a rate of 100 |
| `EndToEnd.FirstResultStored` | services/study_results_service.py:17-25 | after a study's first submission it has exactly that result |
| `EndToEnd.FirstResponsesStored` | services/study_response_service.py:12-21 | after the first submission its result set's rows are exactly one row per submitted response, in order |
| `EndToEnd.OtherCountsUnchanged` | services/study_response_service.py:12-21 | storing responses changes only their own result set's count |

## Left out

- Async ORM mechanics are not modelled: `flush`, `selectinload`, `execution_options` and `await`. Tables are sequences or maps. SQL aggregates (`count`, `max`, `group_by`, `order_by`, `limit`/`offset`) are functions over them.
- Database constraints other than primary keys are not modelled: foreign keys, cascades and uniqueness races between concurrent sessions.
- SQL does not fix the order of rows with equal `submitted` times. The model orders them by a stable sort.
- Floating point is not modelled: `avg_response_time_ms`, `round(completion_rate, 2)` and the `float(rt)` casts. The completion rate is an exact ratio, and the average response time is absent from `StudySummary`.
- CSV formatting is not modelled: `csv.writer` quoting, `StringIO` and `StreamingResponse`. A CSV row is a sequence of typed cells, and timestamps are opaque naturals.
- The clock, `uuid4()` and the id a flush assigns are parameters. So is any exception raised by the database driver or by reading an upload.
- `get_file_from_db` is modelled only for its header and 404 logic. Database faults inside it are not modelled.
- `get_study_results` (services/study_results_service.py:32-51) is not modelled because it cannot run as written: its filter is always true, it appends to the wrong name, and `results` is undefined when there are no rows.
- `get_survey_questions_from_db` and the `/me` route are not modelled. They only select and echo.
- The configuration-list, results-by-id, result-by-subject and all-results routes are not modelled. They forward to dashboard helpers that are not part of this model.
- `get_study_response_by_id` and `get_all_study_responses` are not part of this model. The exports take their output, or their error, as an input.
- The survey-answer, object-storage, form-parsing and authentication-backend modules are not part of this model.
- `models/user_model.py` declares `role` as a list. The model follows `auth/user_manager.py`, which reads and writes it as a single value.
- The `UserRole` enum is not in the modelled files. Its three values are taken from its uses.
- `Store.Db.studies` stands for the study table, with the `configuration_id` the dashboard reads. That column is commented out in models/study_model.py.
- Each result set forms one group of the per-result count, because result ids are primary keys and so assumed unique.
- In `get_config_file`, a missing conclusion row, a second row with the same id, and a survey flag without a survey row all raise exceptions no handler catches. All three are modelled as the same 500.
- `get_study_id_from_config`, which `add_study_result` imports (services/study_results_service.py:10), is not part of this model. The model assumes it returns the configuration's study and raises for a configuration without one.
- `get_config_file` reads the conclusion's `has_survey` attribute, but models/conclusion_config_model.py maps the column as `survey`. The model treats the two as one value.
- `ListStudiesForResearcher` returns studies in table order. The source query groups without ordering, so the database may return them in any order.
- Within one result set, responses keep table order. The source orders only by `study_results_id` (services/researcher_dashboard_service.py:146), so the database may return them in any order.
- The response rows follow the columns the services read and write: many rows per result set and a `response_time` column. models/study_response_model.py instead makes `study_results_id` a unique primary key, names the column `reponse_time`, and declares no `id` column for the dashboard to count.
- Response-schema validation is not modelled. `get_my_studies` builds `StudyListItem(**it)` (routes/researcher_routes.py:46), whose `configuration_id` is required. So a study without a configuration is listed by the model, while the source fails with a validation error.

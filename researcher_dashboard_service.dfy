/**
 * The researcher dashboard: a researcher's studies with their submission
 * counts, the ownership gate, a study's summary (totals, completion,
 * answer histogram) and its results page by page.
 */
module ResearcherDashboardService {
  import opened Common
  import opened Store

  // ---------------------------------------------------------------------
  // Expected items

  /**
   * `_expected_items_for_config`: `len(arr or [])` of the configuration's
   * experiment image-list column; 0 without a files row or with a null or
   * empty column.
   */
  function ExpectedItemsForConfig(files: map<Uuid, FilesRow>, configId: Uuid): nat
  {
    if configId in files && files[configId].experimentImageList.Some?
    then |files[configId].experimentImageList.value|
    else 0
  }

  /** The expected items are the length of the configuration's image list, and 0 without a files row or a list. */
  lemma ExpectedItemsOfList(files: map<Uuid, FilesRow>, configId: Uuid)
    ensures configId !in files || files[configId].experimentImageList.None? ==> ExpectedItemsForConfig(files, configId) == 0
    ensures configId in files && files[configId].experimentImageList.Some? ==>
              ExpectedItemsForConfig(files, configId) == |files[configId].experimentImageList.value|
  {
  }

  // ---------------------------------------------------------------------
  // Studies of a researcher

  /** The study rows owned by `researcher`, in table order. */
  function StudiesOf(studies: seq<StudyRow>, researcher: Uuid): (rs: seq<StudyRow>)
    ensures |rs| <= |studies|
    ensures forall st :: st in rs <==> st in studies && st.researcher == researcher
  {
    if studies == [] then []
    else
      var last := studies[|studies| - 1];
      StudiesOf(studies[..|studies| - 1], researcher) + (if last.researcher == researcher then [last] else [])
  }

  /** The latest submission time among `rs` (`max(submitted)`), none when `rs` is empty. */
  function LastSubmitted(rs: seq<ResultRow>): (t: Option<Timestamp>)
    ensures t.None? <==> rs == []
    ensures t.Some? ==> (exists r :: r in rs && r.submitted == t.value) && forall r :: r in rs ==> r.submitted <= t.value
  {
    if rs == [] then None
    else
      var rest := LastSubmitted(rs[..|rs| - 1]);
      var last := rs[|rs| - 1];
      assert forall r :: r in rs ==> r in rs[..|rs| - 1] || r == last;
      if rest.None? || rest.value < last.submitted then Some(last.submitted) else rest
  }

  datatype StudyListItem = StudyListItem(
    id: Uuid,
    configurationId: Option<Uuid>,
    totalSubmissions: nat,
    expectedItems: nat,
    lastSubmissionAt: Option<Timestamp>)

  /** The list entry of one study: its result count (0 with no results), its expected items (0 with no configuration or files row), its latest submission. */
  function ItemFor(db: Db, st: StudyRow): StudyListItem
  {
    var rs := ResultsOfStudy(db.results, st.id);
    StudyListItem(
      st.id,
      st.configurationId,
      |rs|,
      ExpectedOf(db.files, st.configurationId),
      LastSubmitted(rs))
  }

  /** The expected items of a study's configuration, 0 for a study without one. */
  function ExpectedOf(files: map<Uuid, FilesRow>, cfg: Option<Uuid>): nat
  {
    if cfg.Some? then ExpectedItemsForConfig(files, cfg.value) else 0
  }

  /** The configuration ids of the rows that have one (`cfg_ids`). */
  function ConfigIdsOf(rows: seq<StudyRow>): (ids: seq<Uuid>)
    ensures forall c :: c in ids <==> exists st :: st in rows && st.configurationId == Some(c)
  {
    if rows == [] then []
    else
      var last := rows[|rows| - 1];
      assert forall st :: st in rows ==> st in rows[..|rows| - 1] || st == last;
      ConfigIdsOf(rows[..|rows| - 1]) + (if last.configurationId.Some? then [last.configurationId.value] else [])
  }

  /**
   * `list_studies_for_researcher`: one item per study the researcher owns,
   * in table order, including studies without results; the expected item
   * counts are gathered into a map first, then the items are appended.
   */
  method ListStudiesForResearcher(db: Db, researcher: Uuid) returns (items: seq<StudyListItem>)
    ensures items == ItemsFor(db, StudiesOf(db.studies, researcher))
  {
    var rows := StudiesOf(db.studies, researcher);
    var cfgIds := ConfigIdsOf(rows);
    var expMap := ExpectedItemsMap(db.files, cfgIds);
    items := [];
    for i := 0 to |rows|
      invariant items == ItemsFor(db, rows[..i])
    {
      var r := rows[i];
      var rs := ResultsOfStudy(db.results, r.id);
      var expected := if r.configurationId.Some? && r.configurationId.value in expMap then expMap[r.configurationId.value] else 0;
      ExpectedLookup(db.files, rows, r, expMap);
      assert rows[..i + 1][..i] == rows[..i];
      items := items + [StudyListItem(r.id, r.configurationId, |rs|, expected, LastSubmitted(rs))];
    }
    assert rows[..|rows|] == rows;
  }

  /** The list entries of `rows`, one per row, in order. */
  function ItemsFor(db: Db, rows: seq<StudyRow>): (items: seq<StudyListItem>)
    ensures |items| == |rows|
    ensures forall i :: 0 <= i < |rows| ==> items[i] == ItemFor(db, rows[i])
  {
    if rows == [] then [] else ItemsFor(db, rows[..|rows| - 1]) + [ItemFor(db, rows[|rows| - 1])]
  }

  /** Looking a listed study's configuration up in `exp_map` (0 when absent) gives its expected items. */
  lemma ExpectedLookup(files: map<Uuid, FilesRow>, rows: seq<StudyRow>, r: StudyRow, expMap: map<Uuid, nat>)
    requires r in rows
    requires forall c :: c in expMap <==> c in ConfigIdsOf(rows) && c in files
    requires forall c :: c in expMap ==> expMap[c] == ExpectedItemsForConfig(files, c)
    ensures (if r.configurationId.Some? && r.configurationId.value in expMap then expMap[r.configurationId.value] else 0)
            == ExpectedOf(files, r.configurationId)
  {
    if r.configurationId.Some? {
      assert r.configurationId.value in ConfigIdsOf(rows);
    }
  }

  /** `exp_map`: the expected item count of every listed configuration that has a files row. */
  method ExpectedItemsMap(files: map<Uuid, FilesRow>, cfgIds: seq<Uuid>) returns (expMap: map<Uuid, nat>)
    ensures forall c :: c in expMap <==> c in cfgIds && c in files
    ensures forall c :: c in expMap ==> expMap[c] == ExpectedItemsForConfig(files, c)
  {
    expMap := map[];
    for i := 0 to |cfgIds|
      invariant forall c :: c in expMap <==> c in cfgIds[..i] && c in files
      invariant forall c :: c in expMap ==> expMap[c] == ExpectedItemsForConfig(files, c)
    {
      var c := cfgIds[i];
      assert forall d :: d in cfgIds[..i + 1] <==> d in cfgIds[..i] || d == c;
      if c in files {
        var arr := files[c].experimentImageList;
        expMap := expMap[c := if arr.Some? then |arr.value| else 0];
      }
    }
    assert cfgIds[..|cfgIds|] == cfgIds;
  }

  /** Every study the researcher owns is listed, each with exactly its own results counted. */
  lemma ListCoversOwnedStudies(db: Db, researcher: Uuid, st: StudyRow)
    requires st in db.studies && st.researcher == researcher
    ensures exists i :: 0 <= i < |StudiesOf(db.studies, researcher)| && StudiesOf(db.studies, researcher)[i] == st
    ensures ItemFor(db, st).totalSubmissions == |ResultsOfStudy(db.results, st.id)|
    ensures (forall r :: r in db.results ==> r.studyId != st.id) ==> ItemFor(db, st).totalSubmissions == 0
    ensures st.configurationId.None? || st.configurationId.value !in db.files ==> ItemFor(db, st).expectedItems == 0
  {
    var rows := StudiesOf(db.studies, researcher);
    assert st in rows;
    var i :| 0 <= i < |rows| && rows[i] == st;
    var rs := ResultsOfStudy(db.results, st.id);
    if rs != [] {
      assert rs[0] in rs;
    }
  }

  // ---------------------------------------------------------------------
  // Ownership

  /** `study_id` names a study whose researcher is `researcher`. */
  predicate Owns(studies: seq<StudyRow>, studyId: Uuid, researcher: Uuid)
  {
    exists i :: 0 <= i < |studies| && studies[i].id == studyId && studies[i].researcher == researcher
  }

  /** The query of `_ensure_ownership`: is there a row with this id and this researcher? */
  function OwnedRowExists(studies: seq<StudyRow>, studyId: Uuid, researcher: Uuid): (b: bool)
    ensures b <==> Owns(studies, studyId, researcher)
  {
    if studies == [] then false
    else if studies[0].id == studyId && studies[0].researcher == researcher then true
    else
      var b := OwnedRowExists(studies[1..], studyId, researcher);
      assert Owns(studies[1..], studyId, researcher) ==> Owns(studies, studyId, researcher) by {
        if Owns(studies[1..], studyId, researcher) {
          var i :| 0 <= i < |studies[1..]| && studies[1..][i].id == studyId && studies[1..][i].researcher == researcher;
          assert studies[i + 1] == studies[1..][i];
        }
      }
      assert Owns(studies, studyId, researcher) && !(studies[0].id == studyId && studies[0].researcher == researcher)
             ==> Owns(studies[1..], studyId, researcher) by {
        if Owns(studies, studyId, researcher) && !(studies[0].id == studyId && studies[0].researcher == researcher) {
          var i :| 0 <= i < |studies| && studies[i].id == studyId && studies[i].researcher == researcher;
          assert i > 0 && studies[1..][i - 1] == studies[i];
        }
      }
      b
  }

  /** `_ensure_ownership`: passes (and changes nothing) exactly when the caller owns the study; raises 404 otherwise. */
  function EnsureOwnership(db: Db, studyId: Uuid, researcher: Uuid): (err: Option<HttpError>)
    ensures err.None? <==> Owns(db.studies, studyId, researcher)
    ensures err.Some? ==> err.value == StudyNotFound
  {
    if OwnedRowExists(db.studies, studyId, researcher) then None else Some(StudyNotFound)
  }

  // ---------------------------------------------------------------------
  // Summary

  /** The configuration of the first study row with this id (`scalar`), if any. */
  function ConfigOfStudy(studies: seq<StudyRow>, studyId: Uuid): (c: Option<Uuid>)
    ensures c.Some? ==> exists st :: st in studies && st.id == studyId && st.configurationId == c
    ensures (forall st :: st in studies ==> st.id != studyId) ==> c.None?
    ensures forall k :: 0 <= k < |studies| && studies[k].id == studyId && (forall j :: 0 <= j < k ==> studies[j].id != studyId) ==>
              c == studies[k].configurationId
  {
    if studies == [] then None
    else if studies[0].id == studyId then studies[0].configurationId
    else
      var rest := studies[1..];
      assert forall k :: 1 <= k < |studies| ==> studies[k] == rest[k - 1];
      ConfigOfStudy(rest, studyId)
  }

  function ExpectedItemsOfStudy(db: Db, studyId: Uuid): nat
  {
    var cfg := ConfigOfStudy(db.studies, studyId);
    if cfg.Some? then ExpectedItemsForConfig(db.files, cfg.value) else 0
  }

  /** The number of response rows of result set `rid`. */
  function ResponseCount(db: Db, rid: Uuid): nat
  {
    |ResponsesOf(db.responses, rid)|
  }

  /** The grouped query: the response count of each result row of the study that has responses. */
  function PerResultCounts(db: Db, rs: seq<ResultRow>): (counts: seq<nat>)
    ensures |counts| <= |rs|
    ensures |counts| == |rs| - |CompleteResults(db, rs, 0)|
    ensures forall i :: 0 <= i < |counts| ==> counts[i] > 0
  {
    if rs == [] then []
    else
      var n := ResponseCount(db, rs[|rs| - 1].id);
      PerResultCounts(db, rs[..|rs| - 1]) + (if n > 0 then [n] else [])
  }

  /** How many entries of `counts` equal `e`. */
  function CountEqual(counts: seq<nat>, e: nat): nat
  {
    if counts == [] then 0 else CountEqual(counts[..|counts| - 1], e) + (if counts[|counts| - 1] == e then 1 else 0)
  }

  /** The result rows among `rs` whose response count is exactly `e`. */
  function CompleteResults(db: Db, rs: seq<ResultRow>, e: nat): (cs: seq<ResultRow>)
    ensures |cs| <= |rs|
    ensures forall r :: r in cs <==> r in rs && ResponseCount(db, r.id) == e
  {
    if rs == [] then []
    else
      var last := rs[|rs| - 1];
      CompleteResults(db, rs[..|rs| - 1], e) + (if ResponseCount(db, last.id) == e then [last] else [])
  }

  /** The study's complete submissions: results whose response count equals the expected item count, none when it is 0. */
  function CompleteSubmissions(db: Db, studyId: Uuid): nat
  {
    var e := ExpectedItemsOfStudy(db, studyId);
    if e > 0 then |CompleteResults(db, ResultsOfStudy(db.results, studyId), e)| else 0
  }

  function TotalSubmissions(db: Db, studyId: Uuid): nat
  {
    |ResultsOfStudy(db.results, studyId)|
  }

  /** Counting matching group counts is counting the results with that many responses, for a positive count. */
  lemma {:induction false} CountEqualPerResult(db: Db, rs: seq<ResultRow>, e: nat)
    requires e > 0
    ensures CountEqual(PerResultCounts(db, rs), e) == |CompleteResults(db, rs, e)|
    decreases |rs|
  {
    if rs != [] {
      var front := rs[..|rs| - 1];
      CountEqualPerResult(db, front, e);
      var n := ResponseCount(db, rs[|rs| - 1].id);
      var c := PerResultCounts(db, rs);
      if n > 0 {
        assert c[..|c| - 1] == PerResultCounts(db, front);
      } else {
        assert c == PerResultCounts(db, front);
      }
    }
  }

  /** Complete submissions never outnumber submissions. */
  lemma CompleteAtMostTotal(db: Db, studyId: Uuid)
    ensures CompleteSubmissions(db, studyId) <= TotalSubmissions(db, studyId)
    ensures ExpectedItemsOfStudy(db, studyId) == 0 ==> CompleteSubmissions(db, studyId) == 0
  {
  }

  /** The completion rate: `comp / total * 100`, and 0 without dividing when there are no submissions. */
  function CompletionRate(comp: nat, total: nat): (rate: real)
    ensures total == 0 ==> rate == 0.0
    ensures total > 0 ==> rate * (total as real) == (comp as real) * 100.0
  {
    if total == 0 then 0.0 else (comp as real / total as real) * 100.0
  }

  /** The completion rate lies between 0 and 100, is 0 with no submissions and 100 when every submission is complete. */
  lemma CompletionRateBounds(comp: nat, total: nat)
    requires comp <= total
    ensures 0.0 <= CompletionRate(comp, total) <= 100.0
    ensures total == 0 ==> CompletionRate(comp, total) == 0.0
    ensures 0 < total && comp == total ==> CompletionRate(comp, total) == 100.0
  {
    if total > 0 {
      var t := total as real;
      var c := comp as real;
      var q := c / t;
      assert q * t == c;
      assert (1.0 - q) * t == t - c;
      assert t - c >= 0.0;
    }
  }

  // ---------------------------------------------------------------------
  // Answer histogram

  function AnswersOf(rows: seq<ResponseRow>): (answers: seq<int>)
    ensures |answers| == |rows|
    ensures forall i :: 0 <= i < |rows| ==> answers[i] == rows[i].answer
  {
    seq(|rows|, i requires 0 <= i < |rows| => rows[i].answer)
  }

  /** The grouped count of each distinct answer. */
  function Histogram(answers: seq<int>): map<int, nat>
  {
    if answers == [] then map[]
    else
      var h := Histogram(answers[..|answers| - 1]);
      var a := answers[|answers| - 1];
      h[a := (if a in h then h[a] else 0) + 1]
  }

  /** The histogram has exactly the answers given as keys, each mapped to its number of occurrences. */
  lemma {:induction false} HistogramCounts(answers: seq<int>)
    ensures forall a :: a in Histogram(answers) <==> a in answers
    ensures forall a :: a in Histogram(answers) ==> Histogram(answers)[a] == Occurrences(answers, a)
    decreases |answers|
  {
    if answers != [] {
      var front := answers[..|answers| - 1];
      var a := answers[|answers| - 1];
      assert forall x :: x in answers <==> x in front || x == a;
      HistogramCounts(front);
    }
  }

  /** The distinct answers, in order of first occurrence. */
  function Distinct(answers: seq<int>): (ks: seq<int>)
    ensures forall a :: a in ks <==> a in answers
    ensures forall i, j :: 0 <= i < j < |ks| ==> ks[i] != ks[j]
  {
    if answers == [] then []
    else
      var front := answers[..|answers| - 1];
      var a := answers[|answers| - 1];
      assert forall x :: x in answers <==> x in front || x == a;
      if a in front then Distinct(front) else Distinct(front) + [a]
  }

  /** The sum of `h` over the keys `ks`. */
  function SumOver(h: map<int, nat>, ks: seq<int>): nat
    requires forall i :: 0 <= i < |ks| ==> ks[i] in h
  {
    if ks == [] then 0 else SumOver(h, ks[..|ks| - 1]) + h[ks[|ks| - 1]]
  }

  lemma {:induction false} SumOverUnchanged(h: map<int, nat>, h': map<int, nat>, ks: seq<int>)
    requires forall i :: 0 <= i < |ks| ==> ks[i] in h && ks[i] in h' && h[ks[i]] == h'[ks[i]]
    ensures SumOver(h, ks) == SumOver(h', ks)
    decreases |ks|
  {
    if ks != [] {
      SumOverUnchanged(h, h', ks[..|ks| - 1]);
    }
  }

  /** One more count for a listed key adds one to the sum and keeps every listed key. */
  lemma SumOverSeenKey(h: map<int, nat>, ks: seq<int>, a: int)
    requires forall i :: 0 <= i < |ks| ==> ks[i] in h
    requires a in ks && a in h
    requires forall i, j :: 0 <= i < j < |ks| ==> ks[i] != ks[j]
    ensures forall i :: 0 <= i < |ks| ==> ks[i] in h[a := h[a] + 1]
    ensures SumOver(h[a := h[a] + 1], ks) == SumOver(h, ks) + 1
  {
    SumOverBump(h, ks, a);
  }

  /** A key new to `h`, counted once and listed last, adds one to the sum. */
  lemma SumOverNewKey(h: map<int, nat>, ks: seq<int>, a: int)
    requires forall i :: 0 <= i < |ks| ==> ks[i] in h
    requires a !in h
    ensures forall i :: 0 <= i < |ks + [a]| ==> (ks + [a])[i] in h[a := 1]
    ensures SumOver(h[a := 1], ks + [a]) == SumOver(h, ks) + 1
  {
    var h' := h[a := 1];
    SumOverUnchanged(h, h', ks);
    SumOverSnoc(h', ks, a);
  }

  lemma SumOverSnoc(h: map<int, nat>, ks: seq<int>, k: int)
    requires forall i :: 0 <= i < |ks| ==> ks[i] in h
    requires k in h
    ensures SumOver(h, ks + [k]) == SumOver(h, ks) + h[k]
  {
    assert (ks + [k])[..|ks|] == ks;
  }

  lemma {:induction false} SumOverBump(h: map<int, nat>, ks: seq<int>, a: int)
    requires forall i :: 0 <= i < |ks| ==> ks[i] in h
    requires a in ks && a in h
    requires forall i, j :: 0 <= i < j < |ks| ==> ks[i] != ks[j]
    ensures SumOver(h[a := h[a] + 1], ks) == SumOver(h, ks) + 1
    decreases |ks|
  {
    var h' := h[a := h[a] + 1];
    var front := ks[..|ks| - 1];
    if ks[|ks| - 1] == a {
      assert a !in front;
      SumOverUnchanged(h, h', front);
    } else {
      SumOverBump(h, front, a);
    }
  }

  /** The histogram's counts add up to the number of answers. */
  lemma {:induction false} HistogramSum(answers: seq<int>)
    ensures forall i :: 0 <= i < |Distinct(answers)| ==> Distinct(answers)[i] in Histogram(answers)
    ensures SumOver(Histogram(answers), Distinct(answers)) == |answers|
    decreases |answers|
  {
    if answers != [] {
      var front := answers[..|answers| - 1];
      var a := answers[|answers| - 1];
      assert answers == front + [a];
      HistogramSum(front);
      HistogramCounts(front);
      if a in front {
        HistogramStepSeen(front, a);
      } else {
        HistogramStepNew(front, a);
      }
    }
  }

  /** One more answer adds one to its count, starting from 0 for a new answer. */
  lemma HistogramSnoc(front: seq<int>, a: int)
    ensures var h := Histogram(front);
            Histogram(front + [a]) == h[a := (if a in h then h[a] else 0) + 1]
  {
    assert (front + [a])[..|front|] == front;
  }

  /** One more answer joins the distinct answers at the end unless it was given before. */
  lemma DistinctSnoc(front: seq<int>, a: int)
    ensures Distinct(front + [a]) == if a in front then Distinct(front) else Distinct(front) + [a]
  {
    assert (front + [a])[..|front|] == front;
  }

  /** A repeated answer adds one to its own count and leaves the distinct answers as they were. */
  lemma {:induction false} HistogramStepSeen(front: seq<int>, a: int)
    requires a in front
    requires forall x :: x in Histogram(front) <==> x in front
    requires forall i :: 0 <= i < |Distinct(front)| ==> Distinct(front)[i] in Histogram(front)
    requires SumOver(Histogram(front), Distinct(front)) == |front|
    ensures forall i :: 0 <= i < |Distinct(front + [a])| ==> Distinct(front + [a])[i] in Histogram(front + [a])
    ensures SumOver(Histogram(front + [a]), Distinct(front + [a])) == |front| + 1
  {
    var h := Histogram(front);
    var ks := Distinct(front);
    HistogramSnoc(front, a);
    DistinctSnoc(front, a);
    assert a in h && a in ks;
    SumOverSeenKey(h, ks, a);
  }

  /** A new answer gets count one and joins the distinct answers at the end. */
  lemma {:induction false} HistogramStepNew(front: seq<int>, a: int)
    requires a !in front
    requires forall x :: x in Histogram(front) <==> x in front
    requires forall i :: 0 <= i < |Distinct(front)| ==> Distinct(front)[i] in Histogram(front)
    requires SumOver(Histogram(front), Distinct(front)) == |front|
    ensures forall i :: 0 <= i < |Distinct(front + [a])| ==> Distinct(front + [a])[i] in Histogram(front + [a])
    ensures SumOver(Histogram(front + [a]), Distinct(front + [a])) == |front| + 1
  {
    var h := Histogram(front);
    var ks := Distinct(front);
    HistogramSnoc(front, a);
    DistinctSnoc(front, a);
    assert a !in h;
    SumOverNewKey(h, ks, a);
  }

  datatype StudySummary = StudySummary(
    studyId: Uuid,
    totalSubmissions: nat,
    expectedItems: nat,
    completeSubmissions: nat,
    completionRate: real,
    answerHistogram: map<int, nat>)

  /** The loop over the grouped rows: how many counts equal the expected item count. */
  method CountMatches(counts: seq<nat>, expected: nat) returns (comp: nat)
    ensures comp == CountEqual(counts, expected)
  {
    comp := 0;
    for i := 0 to |counts|
      invariant comp == CountEqual(counts[..i], expected)
    {
      assert counts[..i + 1][..i] == counts[..i];
      if counts[i] == expected {
        comp := comp + 1;
      }
    }
    assert counts[..|counts|] == counts;
  }

  /**
   * `summarize_study` without its average response time: the study's
   * submission count, expected items, complete submissions (counted over
   * the grouped response counts), completion rate and answer histogram.
   */
  method SummarizeStudy(db: Db, studyId: Uuid) returns (s: StudySummary)
    ensures s.studyId == studyId
    ensures s.totalSubmissions == TotalSubmissions(db, studyId)
    ensures s.expectedItems == ExpectedItemsOfStudy(db, studyId)
    ensures s.completeSubmissions == CompleteSubmissions(db, studyId)
    ensures s.completeSubmissions <= s.totalSubmissions
    ensures s.completionRate == CompletionRate(s.completeSubmissions, s.totalSubmissions)
    ensures 0.0 <= s.completionRate <= 100.0
    ensures s.answerHistogram == Histogram(AnswersOf(ResponsesOfStudy(db, studyId)))
  {
    var results := ResultsOfStudy(db.results, studyId);
    var total := |results|;
    var expected := ExpectedItemsOfStudy(db, studyId);
    var comp := 0;
    if expected > 0 {
      var counts := PerResultCounts(db, results);
      comp := CountMatches(counts, expected);
      CountEqualPerResult(db, results, expected);
    }
    CompleteAtMostTotal(db, studyId);
    var rate := if total != 0 then (comp as real / total as real) * 100.0 else 0.0;
    CompletionRateBounds(comp, total);
    var histogram := Histogram(AnswersOf(ResponsesOfStudy(db, studyId)));
    s := StudySummary(studyId, total, expected, comp, rate, histogram);
  }

  // ---------------------------------------------------------------------
  // Paged results

  predicate SortedDesc(s: seq<ResultRow>)
  {
    forall i, j :: 0 <= i < j < |s| ==> s[i].submitted >= s[j].submitted
  }

  /** Inserts `x` before the first row submitted no later than it. */
  function InsertDesc(x: ResultRow, s: seq<ResultRow>): seq<ResultRow>
  {
    if s == [] then [x]
    else if s[0].submitted <= x.submitted then [x] + s
    else [s[0]] + InsertDesc(x, s[1..])
  }

  /** Inserting adds exactly `x` to the rows. */
  lemma {:induction false} InsertDescPerm(x: ResultRow, s: seq<ResultRow>)
    ensures multiset(InsertDesc(x, s)) == multiset(s) + multiset{x}
    decreases |s|
  {
    if s != [] && s[0].submitted > x.submitted {
      InsertDescPerm(x, s[1..]);
      assert s == [s[0]] + s[1..];
      assert InsertDesc(x, s) == [s[0]] + InsertDesc(x, s[1..]);
    }
  }

  /** Inserting into a newest-first sequence keeps it newest first. */
  lemma {:induction false} InsertDescSorted(x: ResultRow, s: seq<ResultRow>)
    requires SortedDesc(s)
    ensures SortedDesc(InsertDesc(x, s))
    decreases |s|
  {
    if s == [] {
    } else if s[0].submitted <= x.submitted {
      ConsSorted(x, s);
    } else {
      var tail := s[1..];
      var rest := InsertDesc(x, tail);
      InsertDescSorted(x, tail);
      InsertDescPerm(x, tail);
      HeadIsNewest(s);
      forall y: ResultRow | y in multiset(rest)
        ensures y.submitted <= s[0].submitted
      {
        if y != x {
          assert y in multiset(tail);
        }
      }
      ConsSorted(s[0], rest);
      assert InsertDesc(x, s) == [s[0]] + rest;
    }
  }

  /** The head of a newest-first sequence is no older than any row of its tail. */
  lemma HeadIsNewest(s: seq<ResultRow>)
    requires SortedDesc(s) && s != []
    ensures forall y :: y in multiset(s[1..]) ==> y.submitted <= s[0].submitted
  {
    forall y | y in multiset(s[1..])
      ensures y.submitted <= s[0].submitted
    {
      var k :| 0 <= k < |s[1..]| && s[1..][k] == y;
      assert s[k + 1] == y;
    }
  }

  /** A row no older than every row of a newest-first sequence can go in front of it. */
  lemma ConsSorted(h: ResultRow, s: seq<ResultRow>)
    requires SortedDesc(s)
    requires forall y :: y in multiset(s) ==> y.submitted <= h.submitted
    ensures SortedDesc([h] + s)
  {
    var r := [h] + s;
    forall i, j | 0 <= i < j < |r|
      ensures r[i].submitted >= r[j].submitted
    {
      assert r[j] == s[j - 1];
      assert s[j - 1] in multiset(s);
      if i > 0 {
        assert r[i] == s[i - 1];
      }
    }
  }

  /** `order_by(submitted.desc())`, with rows of equal time kept in table order. */
  function SortDesc(s: seq<ResultRow>): seq<ResultRow>
  {
    if s == [] then [] else InsertDesc(s[0], SortDesc(s[1..]))
  }

  /** Sorting yields the same rows, newest first. */
  lemma SortDescSorted(s: seq<ResultRow>)
    ensures SortedDesc(SortDesc(s))
    ensures multiset(SortDesc(s)) == multiset(s)
  {
    SortDescOrdered(s);
    SortDescPerm(s);
  }

  lemma {:induction false} SortDescOrdered(s: seq<ResultRow>)
    ensures SortedDesc(SortDesc(s))
    decreases |s|
  {
    if s != [] {
      SortDescOrdered(s[1..]);
      InsertDescSorted(s[0], SortDesc(s[1..]));
    }
  }

  lemma {:induction false} SortDescPerm(s: seq<ResultRow>)
    ensures multiset(SortDesc(s)) == multiset(s)
    decreases |s|
  {
    if s != [] {
      var t := SortDesc(s[1..]);
      SortDescPerm(s[1..]);
      InsertDescPerm(s[0], t);
      assert s == [s[0]] + s[1..];
      assert multiset(s) == multiset{s[0]} + multiset(s[1..]);
    }
  }

  /** `max(page - 1, 0) * page_size`. */
  function Offset(page: int, pageSize: int): (o: int)
    ensures page <= 1 ==> o == 0
    ensures pageSize >= 0 ==> o >= 0
  {
    (if page - 1 > 0 then page - 1 else 0) * pageSize
  }

  /** `limit(size).offset(offset)` over rows: the rows from `offset` on, at most `size` of them. */
  function PageOf(rows: seq<ResultRow>, offset: nat, size: nat): (p: seq<ResultRow>)
    ensures |p| <= size
    ensures offset >= |rows| ==> p == []
    ensures offset < |rows| ==> |p| == if offset + size <= |rows| then size else |rows| - offset
    ensures forall i :: 0 <= i < |p| ==> offset + i < |rows| && p[i] == rows[offset + i]
  {
    if offset >= |rows| then []
    else if offset + size <= |rows| then rows[offset..offset + size]
    else rows[offset..]
  }

  /** Pages 1 to k, concatenated, are the first k pages' worth of rows: paging visits each row once, in order. */
  lemma {:induction false} PagesConcatenate(rows: seq<ResultRow>, size: nat, k: nat)
    ensures var n := if k * size <= |rows| then k * size else |rows|;
            AllPages(rows, size, k) == rows[..n]
    decreases k
  {
    if k > 0 {
      PagesConcatenate(rows, size, k - 1);
      NextPageExtends(rows, size, k);
    }
  }

  /** Page k follows on from where the first k - 1 pages end. */
  lemma NextPageExtends(rows: seq<ResultRow>, size: nat, k: nat)
    requires k > 0
    ensures var m := if (k - 1) * size <= |rows| then (k - 1) * size else |rows|;
            var n := if k * size <= |rows| then k * size else |rows|;
            rows[..m] + PageOf(rows, Offset(k, size), size) == rows[..n]
  {
    var o := (k - 1) * size;
    assert Offset(k, size) == o;
    assert o + size == k * size;
    if o >= |rows| {
      assert rows[..|rows|] + [] == rows[..|rows|];
    } else if k * size <= |rows| {
      assert rows[..o] + rows[o..k * size] == rows[..k * size];
    } else {
      assert rows[..o] + rows[o..] == rows[..|rows|];
    }
  }

  function AllPages(rows: seq<ResultRow>, size: nat, k: nat): seq<ResultRow>
  {
    if k == 0 then [] else AllPages(rows, size, k - 1) + PageOf(rows, Offset(k, size), size)
  }

  datatype ResponseView = ResponseView(imageId: string, answer: int, responseTime: real)

  datatype ResultItem = ResultItem(studyResultsId: Uuid, subjectId: Uuid, submitted: Timestamp, responses: seq<ResponseView>)

  datatype PagedResults = PagedResults(items: seq<ResultItem>, page: int, pageSize: int, total: nat)

  function ViewOf(r: ResponseRow): ResponseView
  {
    ResponseView(r.imageId, r.answer, r.responseTime)
  }

  function ViewsOf(rows: seq<ResponseRow>): (vs: seq<ResponseView>)
    ensures |vs| == |rows|
    ensures forall i :: 0 <= i < |rows| ==> vs[i] == ViewOf(rows[i])
  {
    seq(|rows|, i requires 0 <= i < |rows| => ViewOf(rows[i]))
  }

  /** The rows page `page` shows: the study's results, newest first, sliced at the offset. */
  function PageRows(db: Db, studyId: Uuid, page: int, pageSize: nat): seq<ResultRow>
  {
    var o := Offset(page, pageSize);
    PageOf(SortDesc(ResultsOfStudy(db.results, studyId)), o, pageSize)
  }

  /** The entry of one result row: its id, subject and submission time, with the views of its responses in table order. */
  function ItemOf(db: Db, row: ResultRow): ResultItem
  {
    ResultItem(row.id, row.subjectId, row.submitted, ViewsOf(ResponsesOf(db.responses, row.id)))
  }

  /** The entries page `page` shows, one per row of `PageRows`, in the same order. */
  function PageItems(db: Db, studyId: Uuid, page: int, pageSize: nat): seq<ResultItem>
  {
    var rows := PageRows(db, studyId, page, pageSize);
    seq(|rows|, i requires 0 <= i < |rows| => ItemOf(db, rows[i]))
  }

  /**
   * `paged_results`: the total number of the study's results, and one page
   * of them, newest first, each with its responses (gathered per result id
   * in a map whose lists grow in place). A negative page size makes the
   * database reject LIMIT, an error no handler catches.
   */
  method PagedResultsOf(db: Db, studyId: Uuid, page: int, pageSize: int) returns (r: Result<PagedResults>)
    ensures r.Ok? <==> pageSize >= 0
    ensures r.Err? ==> r.error == InternalServerError
    ensures r.Ok? ==> r.value == PagedResults(PageItems(db, studyId, page, pageSize), page, pageSize, TotalSubmissions(db, studyId))
    ensures r.Ok? ==>
              && r.value.total == TotalSubmissions(db, studyId)
              && r.value.page == page && r.value.pageSize == pageSize
              && |r.value.items| <= pageSize
              && |r.value.items| == |PageRows(db, studyId, page, pageSize)|
              && (forall i :: 0 <= i < |r.value.items| ==>
                    var row := PageRows(db, studyId, page, pageSize)[i];
                    var item := r.value.items[i];
                    item.studyResultsId == row.id && item.subjectId == row.subjectId && item.submitted == row.submitted
                    && row.studyId == studyId
                    && item.responses == ViewsOf(ResponsesOf(db.responses, row.id)))
              && (forall i, j :: 0 <= i < j < |r.value.items| ==> r.value.items[i].submitted >= r.value.items[j].submitted)
  {
    var total := |ResultsOfStudy(db.results, studyId)|;
    if pageSize < 0 {
      return Err(InternalServerError);
    }
    var rows := PageRows(db, studyId, page, pageSize);
    var ids := set i | 0 <= i < |rows| :: rows[i].id;

    var respMap := ResponsesByResult(db.responses, ids);

    var items := seq(|rows|, i requires 0 <= i < |rows| =>
      ResultItem(rows[i].id, rows[i].subjectId, rows[i].submitted,
                 if rows[i].id in respMap then respMap[rows[i].id] else []));
    assert forall i :: 0 <= i < |rows| ==> rows[i].id in ids;
    ItemsFromMap(db, rows, respMap);
    PageItemsFacts(db, studyId, page, pageSize);
    r := Ok(PagedResults(items, page, pageSize, total));
  }

  /** `resp_map`: each requested result id, with the views of its responses in table order. */
  method ResponsesByResult(responses: seq<ResponseRow>, ids: set<Uuid>) returns (respMap: map<Uuid, seq<ResponseView>>)
    ensures respMap.Keys == ids
    ensures forall rid :: rid in respMap ==> respMap[rid] == ViewsOf(ResponsesOf(responses, rid))
  {
    respMap := map rid | rid in ids :: [];
    for k := 0 to |responses|
      invariant respMap.Keys == ids
      invariant forall rid :: rid in respMap ==> respMap[rid] == ViewsOf(ResponsesOf(responses[..k], rid))
    {
      var resp := responses[k];
      forall rid | rid in respMap
        ensures ViewsOf(ResponsesOf(responses[..k + 1], rid))
                == ViewsOf(ResponsesOf(responses[..k], rid)) + (if resp.studyResultsId == rid then [ViewOf(resp)] else [])
      {
        ViewsOfStep(responses, k, rid);
      }
      if resp.studyResultsId in respMap {
        respMap := respMap[resp.studyResultsId := respMap[resp.studyResultsId] + [ViewOf(resp)]];
      }
    }
    assert responses[..|responses|] == responses;
  }

  /** One more response row extends the views of its own result set, and only those. */
  lemma ViewsOfStep(responses: seq<ResponseRow>, k: nat, rid: Uuid)
    requires k < |responses|
    ensures ViewsOf(ResponsesOf(responses[..k + 1], rid))
            == ViewsOf(ResponsesOf(responses[..k], rid)) + (if responses[k].studyResultsId == rid then [ViewOf(responses[k])] else [])
  {
    assert responses[..k + 1][..k] == responses[..k];
    var tail := if responses[k].studyResultsId == rid then [responses[k]] else [];
    assert ResponsesOf(responses[..k + 1], rid) == ResponsesOf(responses[..k], rid) + tail;
    ViewsOfAppend(ResponsesOf(responses[..k], rid), tail);
  }

  lemma ViewsOfAppend(a: seq<ResponseRow>, b: seq<ResponseRow>)
    ensures ViewsOf(a + b) == ViewsOf(a) + ViewsOf(b)
  {
    assert |ViewsOf(a + b)| == |ViewsOf(a) + ViewsOf(b)|;
    forall i | 0 <= i < |a + b|
      ensures ViewsOf(a + b)[i] == (ViewsOf(a) + ViewsOf(b))[i]
    {
      if i >= |a| {
        assert (a + b)[i] == b[i - |a|];
      }
    }
  }

  /** Looking each row's responses up in `resp_map` gives the entries of `ItemOf`. */
  lemma ItemsFromMap(db: Db, rows: seq<ResultRow>, respMap: map<Uuid, seq<ResponseView>>)
    requires forall i :: 0 <= i < |rows| ==> rows[i].id in respMap
    requires forall rid :: rid in respMap ==> respMap[rid] == ViewsOf(ResponsesOf(db.responses, rid))
    ensures seq(|rows|, i requires 0 <= i < |rows| =>
              ResultItem(rows[i].id, rows[i].subjectId, rows[i].submitted,
                         if rows[i].id in respMap then respMap[rows[i].id] else []))
            == seq(|rows|, i requires 0 <= i < |rows| => ItemOf(db, rows[i]))
  {
  }

  /** Each entry of a page carries its row's id, subject, time and responses; the rows belong to the study, newest first. */
  lemma PageItemsFacts(db: Db, studyId: Uuid, page: int, pageSize: nat)
    ensures var rows := PageRows(db, studyId, page, pageSize);
            var items := PageItems(db, studyId, page, pageSize);
      && |items| <= pageSize
      && |items| == |rows|
      && (forall i :: 0 <= i < |items| ==>
            items[i].studyResultsId == rows[i].id && items[i].subjectId == rows[i].subjectId
            && items[i].submitted == rows[i].submitted
            && rows[i].studyId == studyId
            && items[i].responses == ViewsOf(ResponsesOf(db.responses, rows[i].id)))
      && (forall i, j :: 0 <= i < j < |items| ==> items[i].submitted >= items[j].submitted)
  {
    PageRowsFacts(db, studyId, page, pageSize);
  }

  /** The rows of a page belong to the study and are ordered newest first. */
  lemma PageRowsFacts(db: Db, studyId: Uuid, page: int, pageSize: nat)
    ensures var rows := PageRows(db, studyId, page, pageSize);
      && |rows| <= pageSize
      && (forall i :: 0 <= i < |rows| ==> rows[i].studyId == studyId)
      && (forall i, j :: 0 <= i < j < |rows| ==> rows[i].submitted >= rows[j].submitted)
  {
    var all := ResultsOfStudy(db.results, studyId);
    var sorted := SortDesc(all);
    SortDescSorted(all);
    var o := Offset(page, pageSize);
    PageOfStudy(sorted, all, o, pageSize, studyId);
    PageOfSorted(sorted, o, pageSize);
  }

  lemma PageOfStudy(sorted: seq<ResultRow>, all: seq<ResultRow>, o: nat, size: nat, studyId: Uuid)
    requires multiset(sorted) == multiset(all)
    requires forall r :: r in all ==> r.studyId == studyId
    ensures forall i :: 0 <= i < |PageOf(sorted, o, size)| ==> PageOf(sorted, o, size)[i].studyId == studyId
  {
    var rows := PageOf(sorted, o, size);
    forall i | 0 <= i < |rows|
      ensures rows[i].studyId == studyId
    {
      assert rows[i] == sorted[o + i];
      assert rows[i] in multiset(sorted);
    }
  }

  lemma PageOfSorted(sorted: seq<ResultRow>, o: nat, size: nat)
    requires SortedDesc(sorted)
    ensures SortedDesc(PageOf(sorted, o, size))
  {
    var rows := PageOf(sorted, o, size);
    forall i, j | 0 <= i < j < |rows|
      ensures rows[i].submitted >= rows[j].submitted
    {
      assert rows[i] == sorted[o + i] && rows[j] == sorted[o + j];
    }
  }

  /** Page 1 (and any page number below it) is the first `pageSize` results, newest first. */
  lemma FirstPage(db: Db, studyId: Uuid, page: int, pageSize: nat)
    requires page <= 1
    ensures var sorted := SortDesc(ResultsOfStudy(db.results, studyId));
            PageRows(db, studyId, page, pageSize) == sorted[..if pageSize <= |sorted| then pageSize else |sorted|]
  {
  }
}

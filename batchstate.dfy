/** `utils/batch_state_manager.py`: the state of a submitted image batch job,
    kept as one JSON file per course, unit and question type in a state
    directory, and the summary of the pending jobs. The directory is a map
    from file names to what the files hold; the order in which the directory
    lists them is given to the walks that depend on it. */
module BatchState {
  import opened PyStrings
  import opened Records

  /** One image request of a set: which question it is for, its batch key
      (`u1_s3_q5`) and its prompt, if the request recorded one. */
  datatype ImageRequest = ImageRequest(questionIndex: int, key: string, prompt: Option<string>)

  /** `SetData` */
  datatype SetData = SetData(setIndex: int, questions: seq<Question>, imageRequests: seq<ImageRequest>)

  /** `BatchJobState`: one batch job for all the sets of one unit. */
  datatype JobState = JobState(
    jobName: string,
    courseId: string,
    courseName: string,
    unitIndex: int,
    unitTitle: string,
    questionType: string,
    sets: seq<SetData>,
    totalImageRequests: int,
    jsonlFilePath: string,
    uploadedFileName: string,
    createdAt: string)

  /** What a file of the state directory holds: a whole job state; a JSON
      object that is not one (only its `job_name` entry, if any, is kept); or
      anything else (unreadable, not JSON, not an object). */
  datatype StateFile = Saved(job: JobState) | Fields(jobName: Option<string>) | Garbage

  // ---- file names ----

  /** `{course_id}_u{unit_index + 1}_{question_type}.json` */
  function StateFileName(courseId: string, unitIndex: int, questionType: string): string {
    courseId + "_u" + IntToString(unitIndex + 1) + "_" + questionType + ".json"
  }

  lemma IntToStringHasNoUnderscore(i: int, k: int)
    requires 0 <= k < |IntToString(i)|
    ensures IntToString(i)[k] != '_'
  {
    var d := NatToString(if i < 0 then -i else i);
    if i < 0 && k > 0 {
      assert IntToString(i)[k] == d[k - 1];
    }
  }

  /** Two strings that differ before a separator they do not contain
      differ however they are framed. */
  lemma FramedDiffer(a: string, x: string, y: string, sep: char, t: string)
    requires x != y && sep !in x && sep !in y
    ensures a + x + [sep] + t != a + y + [sep] + t
  {
    var n1 := a + x + [sep] + t;
    var n2 := a + y + [sep] + t;
    if |x| == |y| {
      assert n1[|a|..|a| + |x|] == x;
      assert n2[|a|..|a| + |y|] == y;
    } else if |x| < |y| {
      assert n1[|a| + |x|] == sep;
      assert n2[|a| + |x|] == y[|x|];
    } else {
      assert n2[|a| + |y|] == sep;
      assert n1[|a| + |y|] == x[|y|];
    }
  }

  /** The same course and question type give one file per unit: different
      units never share a file, so a job only replaces the state of its own
      unit. */
  lemma StateFileNameInjective(courseId: string, questionType: string, i: int, j: int)
    requires i != j
    ensures StateFileName(courseId, i, questionType) != StateFileName(courseId, j, questionType)
  {
    var a := courseId + "_u";
    var t := questionType + ".json";
    var x := IntToString(i + 1);
    var y := IntToString(j + 1);
    IntToStringInjective(i + 1, j + 1);
    forall k | 0 <= k < |x| ensures x[k] != '_' { IntToStringHasNoUnderscore(i + 1, k); }
    forall k | 0 <= k < |y| ensures y[k] != '_' { IntToStringHasNoUnderscore(j + 1, k); }
    FramedDiffer(a, x, y, '_', t);
    assert StateFileName(courseId, i, questionType) == a + x + ['_'] + t;
    assert StateFileName(courseId, j, questionType) == a + y + ['_'] + t;
  }

  /** `glob("*.json")` keeps this file. */
  predicate IsStateFileName(name: string) {
    EndsWith(name, ".json")
  }

  lemma StateFileNameIsJson(courseId: string, unitIndex: int, questionType: string)
    ensures IsStateFileName(StateFileName(courseId, unitIndex, questionType))
  {
    var n := StateFileName(courseId, unitIndex, questionType);
    assert n == (courseId + "_u" + IntToString(unitIndex + 1) + "_" + questionType) + ".json";
  }

  // ---- loading ----

  /** The jobs loaded from the files named in `order`, in that order: every
      `.json` file holding a whole job state, the others skipped. */
  function LoadedJobs(order: seq<string>, files: map<string, StateFile>): seq<JobState> {
    if order == [] then []
    else
      var before := LoadedJobs(order[..|order| - 1], files);
      var name := order[|order| - 1];
      if IsStateFileName(name) && name in files && files[name].Saved? then before + [files[name].job] else before
  }

  /** A job is loaded exactly when some listed `.json` file holds it. */
  lemma {:induction false} LoadedJobsExact(order: seq<string>, files: map<string, StateFile>, job: JobState)
    ensures job in LoadedJobs(order, files) <==>
      exists k | 0 <= k < |order| :: IsStateFileName(order[k]) && order[k] in files && files[order[k]] == Saved(job)
  {
    if order != [] {
      var init := order[..|order| - 1];
      LoadedJobsExact(init, files, job);
      if job in LoadedJobs(order, files) && job !in LoadedJobs(init, files) {
        assert files[order[|order| - 1]] == Saved(job);
      }
      if exists k | 0 <= k < |order| :: IsStateFileName(order[k]) && order[k] in files && files[order[k]] == Saved(job) {
        var k :| 0 <= k < |order| && IsStateFileName(order[k]) && order[k] in files && files[order[k]] == Saved(job);
        if k < |init| {
          assert init[k] == order[k];
        }
      }
    }
  }

  // ---- finding a job's file ----

  /** The file named `name` is the state file of job `jobName`: its
      `job_name` entry is that name. */
  predicate Matches(name: string, files: map<string, StateFile>, jobName: string) {
    && IsStateFileName(name)
    && name in files
    && match files[name]
       case Saved(job) => job.jobName == jobName
       case Fields(n) => n == Some(jobName)
       case Garbage => false
  }

  /** The position in `order` of the first state file of job `jobName`. */
  function FirstMatch(order: seq<string>, files: map<string, StateFile>, jobName: string): (r: Option<nat>)
    ensures r.Some? ==>
      && r.value < |order|
      && Matches(order[r.value], files, jobName)
      && (forall h | 0 <= h < r.value :: !Matches(order[h], files, jobName))
    ensures r.None? ==> forall h | 0 <= h < |order| :: !Matches(order[h], files, jobName)
  {
    if order == [] then None
    else if Matches(order[0], files, jobName) then Some(0)
    else
      var rest := FirstMatch(order[1..], files, jobName);
      if rest.Some? then Some(rest.value + 1) else None
  }

  // ---- counting jobs ----

  /** `sum(job.total_image_requests for job in jobs)` */
  function TotalImages(jobs: seq<JobState>): int {
    if jobs == [] then 0 else TotalImages(jobs[..|jobs| - 1]) + jobs[|jobs| - 1].totalImageRequests
  }

  /** The course ids of the jobs, each once, in first-seen order: the keys
      of `by_course`. */
  function CourseOrder(jobs: seq<JobState>): seq<string> {
    if jobs == [] then []
    else
      var before := CourseOrder(jobs[..|jobs| - 1]);
      var c := jobs[|jobs| - 1].courseId;
      if c in before then before else before + [c]
  }

  /** The jobs of course `c`. */
  function CourseJobs(jobs: seq<JobState>, c: string): nat {
    if jobs == [] then 0 else CourseJobs(jobs[..|jobs| - 1], c) + if jobs[|jobs| - 1].courseId == c then 1 else 0
  }

  /** The image requests of the jobs of course `c`. */
  function CourseImages(jobs: seq<JobState>, c: string): int {
    if jobs == [] then 0
    else CourseImages(jobs[..|jobs| - 1], c) + if jobs[|jobs| - 1].courseId == c then jobs[|jobs| - 1].totalImageRequests else 0
  }

  /** The 1-based unit numbers of the jobs of course `c`, in load order. */
  function CourseUnits(jobs: seq<JobState>, c: string): seq<int> {
    if jobs == [] then []
    else CourseUnits(jobs[..|jobs| - 1], c) + if jobs[|jobs| - 1].courseId == c then [jobs[|jobs| - 1].unitIndex + 1] else []
  }

  /** The jobs of question type `t`. */
  function TypeCount(jobs: seq<JobState>, t: string): nat {
    if jobs == [] then 0 else TypeCount(jobs[..|jobs| - 1], t) + if jobs[|jobs| - 1].questionType == t then 1 else 0
  }

  /** Every job is an MCQ or an FRQ job (`by_type` has no other key). */
  predicate AllTyped(jobs: seq<JobState>) {
    forall k | 0 <= k < |jobs| :: jobs[k].questionType == "mcq" || jobs[k].questionType == "frq"
  }

  /** `by_course[c]` */
  datatype CourseSummary = CourseSummary(jobs: nat, images: int, units: seq<int>)

  /** What `get_state_summary` returns; `courseOrder` is the key order of
      `by_course`. */
  datatype Summary = Summary(
    totalJobs: nat,
    totalImages: int,
    byCourse: map<string, CourseSummary>,
    courseOrder: seq<string>,
    byType: map<string, nat>)

  function CourseSummaryOf(jobs: seq<JobState>, c: string): CourseSummary {
    CourseSummary(CourseJobs(jobs, c), CourseImages(jobs, c), CourseUnits(jobs, c))
  }

  /** The courses are listed once each. */
  lemma {:induction false} CourseOrderDistinct(jobs: seq<JobState>)
    ensures forall i, j | 0 <= i < j < |CourseOrder(jobs)| :: CourseOrder(jobs)[i] != CourseOrder(jobs)[j]
  {
    if jobs != [] {
      var init := jobs[..|jobs| - 1];
      CourseOrderDistinct(init);
      var before := CourseOrder(init);
      var c := jobs[|jobs| - 1].courseId;
      if c !in before {
        var cs := before + [c];
        assert CourseOrder(jobs) == cs;
        forall i, j | 0 <= i < j < |cs| ensures cs[i] != cs[j] {
          assert cs[i] == before[i];
          if j == |before| {
            assert cs[j] == c;
          } else {
            assert cs[j] == before[j];
          }
        }
      } else {
        assert CourseOrder(jobs) == before;
      }
    }
  }

  /** A course is listed exactly when some job is of that course. */
  lemma {:induction false} CourseOrderMember(jobs: seq<JobState>, c: string)
    ensures c in CourseOrder(jobs) <==> exists k | 0 <= k < |jobs| :: jobs[k].courseId == c
  {
    if jobs != [] {
      var init := jobs[..|jobs| - 1];
      CourseOrderMember(init, c);
      if exists k | 0 <= k < |jobs| :: jobs[k].courseId == c {
        var k :| 0 <= k < |jobs| && jobs[k].courseId == c;
        if k < |init| {
          assert init[k] == jobs[k];
        }
      }
      if c in CourseOrder(init) {
        var k :| 0 <= k < |init| && init[k].courseId == c;
        assert jobs[k] == init[k];
      }
    }
  }

  /** A course that has no job counts nothing. */
  lemma {:induction false} CourseAbsent(jobs: seq<JobState>, c: string)
    requires c !in CourseOrder(jobs)
    ensures CourseJobs(jobs, c) == 0 && CourseImages(jobs, c) == 0 && CourseUnits(jobs, c) == []
  {
    if jobs != [] {
      CourseAbsent(jobs[..|jobs| - 1], c);
    }
  }

  /** A course lists one unit per job. */
  lemma {:induction false} CourseUnitsCount(jobs: seq<JobState>, c: string)
    ensures |CourseUnits(jobs, c)| == CourseJobs(jobs, c)
  {
    if jobs != [] {
      CourseUnitsCount(jobs[..|jobs| - 1], c);
    }
  }

  /** `f` summed over the courses `cs`. */
  function SumJobs(jobs: seq<JobState>, cs: seq<string>): int {
    if cs == [] then 0 else SumJobs(jobs, cs[..|cs| - 1]) + CourseJobs(jobs, cs[|cs| - 1])
  }

  function SumImages(jobs: seq<JobState>, cs: seq<string>): int {
    if cs == [] then 0 else SumImages(jobs, cs[..|cs| - 1]) + CourseImages(jobs, cs[|cs| - 1])
  }

  /** Adding one job to the jobs adds its count and images to the sums over
      a list of different courses that holds its course once. */
  lemma {:induction false} SumsSnoc(jobs: seq<JobState>, job: JobState, cs: seq<string>)
    requires forall i, j | 0 <= i < j < |cs| :: cs[i] != cs[j]
    ensures SumJobs(jobs + [job], cs) == SumJobs(jobs, cs) + if job.courseId in cs then 1 else 0
    ensures SumImages(jobs + [job], cs) == SumImages(jobs, cs) + if job.courseId in cs then job.totalImageRequests else 0
  {
    assert (jobs + [job])[..|jobs|] == jobs;
    if cs != [] {
      var init := cs[..|cs| - 1];
      SumsSnoc(jobs, job, init);
      assert job.courseId in cs <==> job.courseId in init || job.courseId == cs[|cs| - 1];
      if job.courseId == cs[|cs| - 1] {
        assert job.courseId !in init;
      }
    }
  }

  /** The per-course counts add up to the totals. */
  lemma {:induction false} CourseSumsAddUp(jobs: seq<JobState>)
    ensures SumJobs(jobs, CourseOrder(jobs)) == |jobs|
    ensures SumImages(jobs, CourseOrder(jobs)) == TotalImages(jobs)
  {
    if jobs != [] {
      var init := jobs[..|jobs| - 1];
      var job := jobs[|jobs| - 1];
      CourseSumsAddUp(init);
      CourseOrderDistinct(jobs);
      assert init + [job] == jobs;
      SumsSnoc(init, job, CourseOrder(jobs));
      if job.courseId !in CourseOrder(init) {
        CourseAbsent(init, job.courseId);
        SumsSnocCourse(jobs, CourseOrder(init), job.courseId);
      }
    }
  }

  lemma SumsSnocCourse(jobs: seq<JobState>, cs: seq<string>, c: string)
    ensures SumJobs(jobs, cs + [c]) == SumJobs(jobs, cs) + CourseJobs(jobs, c)
    ensures SumImages(jobs, cs + [c]) == SumImages(jobs, cs) + CourseImages(jobs, c)
  {
    assert (cs + [c])[..|cs|] == cs;
  }

  /** With every job typed, the two type counts add up to the total. */
  lemma {:induction false} TypeCountsAddUp(jobs: seq<JobState>)
    requires AllTyped(jobs)
    ensures TypeCount(jobs, "mcq") + TypeCount(jobs, "frq") == |jobs|
  {
    if jobs != [] {
      var init := jobs[..|jobs| - 1];
      assert AllTyped(init) by {
        forall k | 0 <= k < |init| ensures init[k] == jobs[k] { }
      }
      TypeCountsAddUp(init);
    }
  }

  // ---- the state directory ----

  class StateDir {
    /** Whether the directory exists. */
    var present: bool
    var files: map<string, StateFile>

    ghost predicate Valid()
      reads this
    {
      !present ==> files == map[]
    }

    /** `order` is how the directory lists its files: each once. */
    ghost predicate Listing(order: seq<string>)
      reads this
    {
      && (forall i, j | 0 <= i < j < |order| :: order[i] != order[j])
      && (forall n :: n in order <==> n in files)
    }

    constructor (present: bool, files: map<string, StateFile>)
      requires !present ==> files == map[]
      ensures Valid()
      ensures this.present == present && this.files == files
    {
      this.present := present;
      this.files := files;
    }

    /** `save_batch_job_state`: creates the directory if needed and writes
        the job's file, replacing an earlier state of the same course, unit
        and question type. */
    method Save(job: JobState) returns (name: string)
      requires Valid()
      modifies this
      ensures Valid()
      ensures name == StateFileName(job.courseId, job.unitIndex, job.questionType)
      ensures present && files == old(files)[name := Saved(job)]
    {
      present := true;
      name := StateFileName(job.courseId, job.unitIndex, job.questionType);
      files := files[name := Saved(job)];
    }

    /** `load_pending_batch_jobs`: nothing from a missing directory;
        otherwise the whole job states of the `.json` files, in listing
        order, skipping the rest. */
    method Load(order: seq<string>) returns (jobs: seq<JobState>)
      requires Valid() && Listing(order)
      ensures !present ==> jobs == []
      ensures present ==> jobs == LoadedJobs(order, files)
    {
      if !present {
        return [];
      }
      jobs := [];
      for k := 0 to |order|
        invariant jobs == LoadedJobs(order[..k], files)
      {
        assert order[..k + 1][..k] == order[..k];
        var name := order[k];
        if IsStateFileName(name) {
          var content := files[name];
          match content {
            case Saved(job) => jobs := jobs + [job];
            case Fields(_) =>
            case Garbage =>
          }
        }
      }
      assert order[..|order|] == order;
    }

    /** `mark_batch_job_completed`: deletes the first listed state file of
        job `jobName` and says whether there was one. */
    method MarkCompleted(jobName: string, order: seq<string>) returns (deleted: bool)
      requires Valid() && Listing(order)
      modifies this
      ensures Valid()
      ensures present == old(present)
      ensures deleted <==> old(present) && FirstMatch(order, old(files), jobName).Some?
      ensures deleted ==> files == old(files) - {order[FirstMatch(order, old(files), jobName).value]}
      ensures !deleted ==> files == old(files)
    {
      if !present {
        return false;
      }
      for k := 0 to |order|
        invariant forall h | 0 <= h < k :: !Matches(order[h], files, jobName)
      {
        var name := order[k];
        if IsStateFileName(name) {
          var content := files[name];
          var isMatch := match content
            case Saved(job) => job.jobName == jobName
            case Fields(n) => n == Some(jobName)
            case Garbage => false;
          if isMatch {
            FirstMatchAt(order, files, jobName, k);
            files := files - {name};
            return true;
          }
        }
      }
      FirstMatchNone(order, files, jobName);
      return false;
    }

    /** `get_state_summary`: loads the jobs and counts them; a job of another
        question type than mcq or frq raises (`None`). */
    method StateSummary(order: seq<string>) returns (r: Option<Summary>)
      requires Valid() && Listing(order)
      ensures var jobs := if present then LoadedJobs(order, files) else [];
        r == if AllTyped(jobs) then Some(SummaryOf(jobs)) else None
    {
      var jobs := Load(order);
      r := Summarize(jobs);
    }
  }

  lemma FirstMatchAt(order: seq<string>, files: map<string, StateFile>, jobName: string, k: nat)
    requires k < |order| && Matches(order[k], files, jobName)
    requires forall h | 0 <= h < k :: !Matches(order[h], files, jobName)
    ensures FirstMatch(order, files, jobName) == Some(k)
  {
  }

  lemma FirstMatchNone(order: seq<string>, files: map<string, StateFile>, jobName: string)
    requires forall h | 0 <= h < |order| :: !Matches(order[h], files, jobName)
    ensures FirstMatch(order, files, jobName).None?
  {
  }

  /** The summary of a list of jobs of known types. */
  function SummaryOf(jobs: seq<JobState>): Summary {
    Summary(
      |jobs|,
      TotalImages(jobs),
      map c | c in CourseOrder(jobs) :: CourseSummaryOf(jobs, c),
      CourseOrder(jobs),
      map["mcq" := TypeCount(jobs, "mcq"), "frq" := TypeCount(jobs, "frq")])
  }

  /** A course's entry after counting one more of its jobs. */
  function Added(s: CourseSummary, job: JobState): CourseSummary {
    CourseSummary(s.jobs + 1, s.images + job.totalImageRequests, s.units + [job.unitIndex + 1])
  }

  /** What counting job `k` after the jobs before it changes. */
  lemma SummaryStep(jobs: seq<JobState>, k: nat)
    requires k < |jobs|
    ensures var before := jobs[..k];
      var after := jobs[..k + 1];
      var job := jobs[k];
      && CourseOrder(after) == (if job.courseId in CourseOrder(before) then CourseOrder(before) else CourseOrder(before) + [job.courseId])
      && (forall c :: CourseSummaryOf(after, c) == if c == job.courseId then Added(CourseSummaryOf(before, c), job) else CourseSummaryOf(before, c))
      && (forall t :: TypeCount(after, t) == TypeCount(before, t) + if job.questionType == t then 1 else 0)
      && TotalImages(after) == TotalImages(before) + job.totalImageRequests
      && (AllTyped(after) <==> AllTyped(before) && (job.questionType == "mcq" || job.questionType == "frq"))
  {
    var before := jobs[..k];
    var after := jobs[..k + 1];
    assert after[..k] == before;
    assert AllTyped(after) ==> AllTyped(before) by {
      forall h | 0 <= h < k ensures before[h] == after[h] { }
    }
  }

  /** The counting loop of `get_state_summary`. */
  method Summarize(jobs: seq<JobState>) returns (r: Option<Summary>)
    ensures r == if AllTyped(jobs) then Some(SummaryOf(jobs)) else None
  {
    var total := 0;
    var byCourse: map<string, CourseSummary> := map[];
    var courseOrder: seq<string> := [];
    var byType: map<string, nat> := map["mcq" := 0, "frq" := 0];
    for k := 0 to |jobs|
      invariant AllTyped(jobs[..k])
      invariant courseOrder == CourseOrder(jobs[..k])
      invariant forall c :: c in byCourse <==> c in courseOrder
      invariant forall c | c in byCourse :: byCourse[c] == CourseSummaryOf(jobs[..k], c)
      invariant byType.Keys == {"mcq", "frq"}
      invariant byType["mcq"] == TypeCount(jobs[..k], "mcq") && byType["frq"] == TypeCount(jobs[..k], "frq")
      invariant total == TotalImages(jobs[..k])
    {
      var job := jobs[k];
      SummaryStep(jobs, k);
      if job.courseId !in byCourse {
        CourseAbsent(jobs[..k], job.courseId);
        byCourse := byCourse[job.courseId := CourseSummary(0, 0, [])];
        courseOrder := courseOrder + [job.courseId];
      }
      byCourse := byCourse[job.courseId := Added(byCourse[job.courseId], job)];
      total := total + job.totalImageRequests;
      if job.questionType !in byType {
        assert !AllTyped(jobs) by {
          assert jobs[k].questionType != "mcq" && jobs[k].questionType != "frq";
        }
        return None;
      }
      byType := byType[job.questionType := byType[job.questionType] + 1];
    }
    assert jobs[..|jobs|] == jobs;
    assert byCourse == map c | c in CourseOrder(jobs) :: CourseSummaryOf(jobs, c);
    assert byType == map["mcq" := TypeCount(jobs, "mcq"), "frq" := TypeCount(jobs, "frq")];
    r := Some(Summary(|jobs|, total, byCourse, courseOrder, byType));
  }
}

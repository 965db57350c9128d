/** The second phase, `batch_retrieve_and_render.py`: the pending image batch
    jobs are polled; a finished job's images are filled into its stored
    questions in place, the questions are numbered and each set is rendered.
    The batch service (job status, result download) and the renderer are
    inputs of the model. */
module BatchRetrieve {
  import opened PyStrings
  import opened Records
  import opened BatchState
  import RepairLoop

  // ---- numbering ----

  /** The kind in the ids of a set: "MCQ" for an mcq job, "FRQ" for any other. */
  function IdKind(questionType: string): string {
    if questionType == "mcq" then "MCQ" else "FRQ"
  }

  /** `assign_question_ids_for_set`: numbers the questions of a set in place. */
  method AssignQuestionIdsForSet(questions: array<Question>, courseId: string, unitIndex: int, setIndex: int, questionType: string)
    modifies questions
    ensures questions[..] == RepairLoop.WithIds(old(questions[..]), courseId, IdKind(questionType), unitIndex, setIndex)
  {
    RepairLoop.AssignIds(questions, courseId, IdKind(questionType), unitIndex, setIndex);
  }

  /** The ids of a numbered set are pairwise different, carry the set's
      unit and set number, and say MCQ exactly for an mcq job. */
  lemma NumberedIds(qs: seq<Question>, courseId: string, unitIndex: int, setIndex: int, questionType: string)
    ensures var r := RepairLoop.WithIds(qs, courseId, IdKind(questionType), unitIndex, setIndex);
      && |r| == |qs|
      && (forall i, j | 0 <= i < j < |r| :: r[i].id != r[j].id)
      && (forall i | 0 <= i < |r| :: r[i].id.Some?
            && StartsWith(r[i].id.value, courseId + "_" + IdKind(questionType) + "_U" + IntToString(unitIndex + 1)
                 + "S" + IntToString(setIndex + 1) + "Q"))
  {
    RepairLoop.WithIdsDistinct(qs, courseId, IdKind(questionType), unitIndex, setIndex);
  }

  // ---- filling in the images ----

  /** A downloaded image: where it was saved and its bytes in base64. */
  datatype ImageFile = ImageFile(path: string, base64: string)

  /** What `retrieve_batch_results` gives: the images by request key. */
  type ImageResults = map<string, ImageFile>

  /** `questions_data[i]` is defined: Python counts a negative index from the end. */
  predicate InRange(i: int, n: nat) {
    -(n as int) <= i < n
  }

  /** The position `questions_data[i]` names. */
  function PyIndex(i: int, n: nat): (p: int)
    requires InRange(i, n)
    ensures 0 <= p < n
  {
    if i < 0 then i + n else i
  }

  /** The stimulus a request leaves: the downloaded image, described by the
      request's prompt or "Generated image"; or the failure record when the
      key has no image. */
  function StimulusFor(req: ImageRequest, results: ImageResults): Stimulus {
    if req.key in results then
      ImageStimulus(results[req.key].path, results[req.key].base64, if req.prompt.Some? then req.prompt.value else "Generated image")
    else FailedImage("Image generation failed")
  }

  /** The questions of a set after its image requests, and whether every
      request named a question (an index out of range raises, leaving the
      earlier requests done). */
  datatype Filled = Filled(questions: seq<Question>, complete: bool)

  function FillImages(qs: seq<Question>, reqs: seq<ImageRequest>, results: ImageResults): (r: Filled)
    ensures |r.questions| == |qs|
  {
    if reqs == [] then Filled(qs, true)
    else
      var before := FillImages(qs, reqs[..|reqs| - 1], results);
      var req := reqs[|reqs| - 1];
      if !before.complete || !InRange(req.questionIndex, |qs|) then Filled(before.questions, false)
      else
        var p := PyIndex(req.questionIndex, |qs|);
        Filled(before.questions[p := WithStimulus(before.questions[p], Some(StimulusFor(req, results)))], true)
  }

  /** The last request that names position `p`, if any. */
  function LastRequestFor(reqs: seq<ImageRequest>, p: int, n: nat): (r: Option<nat>)
    ensures r.Some? ==>
      && r.value < |reqs|
      && InRange(reqs[r.value].questionIndex, n)
      && PyIndex(reqs[r.value].questionIndex, n) == p
      && (forall k | r.value < k < |reqs| :: !(InRange(reqs[k].questionIndex, n) && PyIndex(reqs[k].questionIndex, n) == p))
    ensures r.None? ==> forall k | 0 <= k < |reqs| :: !(InRange(reqs[k].questionIndex, n) && PyIndex(reqs[k].questionIndex, n) == p)
  {
    if reqs == [] then None
    else
      var last := reqs[|reqs| - 1];
      if InRange(last.questionIndex, n) && PyIndex(last.questionIndex, n) == p then Some(|reqs| - 1)
      else LastRequestFor(reqs[..|reqs| - 1], p, n)
  }

  /** Filling completes exactly when every request names a question; then
      each question carries the stimulus of the last request naming it, and
      a question no request names is unchanged. */
  lemma {:induction false} FillImagesExact(qs: seq<Question>, reqs: seq<ImageRequest>, results: ImageResults)
    ensures FillImages(qs, reqs, results).complete <==> forall k | 0 <= k < |reqs| :: InRange(reqs[k].questionIndex, |qs|)
    ensures FillImages(qs, reqs, results).complete ==>
      forall p | 0 <= p < |qs| :: FillImages(qs, reqs, results).questions[p] ==
        match LastRequestFor(reqs, p, |qs|)
        case None => qs[p]
        case Some(k) => WithStimulus(qs[p], Some(StimulusFor(reqs[k], results)))
  {
    if reqs != [] {
      var init := reqs[..|reqs| - 1];
      FillImagesExact(qs, init, results);
      forall k | 0 <= k < |init| ensures init[k] == reqs[k] { }
    }
  }

  /** A request out of range stops the filling there: the requests before
      it are done, the ones after it are not. */
  lemma {:induction false} FillImagesStops(qs: seq<Question>, reqs: seq<ImageRequest>, results: ImageResults, k: nat)
    requires k < |reqs| && !InRange(reqs[k].questionIndex, |qs|)
    ensures FillImages(qs, reqs, results) == Filled(FillImages(qs, reqs[..k], results).questions, false)
    decreases |reqs|
  {
    var init := reqs[..|reqs| - 1];
    if k < |init| {
      assert init[k] == reqs[k];
      FillImagesStops(qs, init, results, k);
      assert init[..k] == reqs[..k];
    } else {
      assert init == reqs[..k];
    }
  }

  /** The fill-in loop of `process_completed_job` on one set's questions. */
  method FillImagesInPlace(questions: array<Question>, reqs: seq<ImageRequest>, results: ImageResults)
    returns (complete: bool)
    modifies questions
    ensures Filled(questions[..], complete) == FillImages(old(questions[..]), reqs, results)
  {
    ghost var start := questions[..];
    for k := 0 to |reqs|
      invariant FillImages(start, reqs[..k], results) == Filled(questions[..], true)
    {
      assert reqs[..k + 1][..k] == reqs[..k];
      var req := reqs[k];
      if !InRange(req.questionIndex, questions.Length) {
        FillImagesStops(start, reqs, results, k);
        return false;
      }
      var p := PyIndex(req.questionIndex, questions.Length);
      if req.key in results {
        var image := results[req.key];
        var alt := if req.prompt.Some? then req.prompt.value else "Generated image";
        questions[p] := WithStimulus(questions[p], Some(ImageStimulus(image.path, image.base64, alt)));
      } else {
        questions[p] := WithStimulus(questions[p], Some(FailedImage("Image generation failed")));
      }
    }
    assert reqs[..|reqs|] == reqs;
    return true;
  }

  // ---- processing a finished job ----

  /** What `process_completed_job` ends with: the number of sets rendered, or
      an exception. */
  datatype JobOutcome = Raised | Rendered(count: nat)

  /** The sets of a job after processing, and the outcome. */
  datatype Processed = Processed(sets: seq<SetData>, outcome: JobOutcome)

  /** One set after its images are filled in and, when every request named
      a question, its questions numbered. */
  datatype SetOutcome = SetOutcome(data: SetData, complete: bool)

  function ProcessSet(s: SetData, results: ImageResults, courseId: string, unitIndex: int, questionType: string): SetOutcome {
    var filled := FillImages(s.questions, s.imageRequests, results);
    if !filled.complete then SetOutcome(s.(questions := filled.questions), false)
    else SetOutcome(s.(questions := RepairLoop.WithIds(filled.questions, courseId, IdKind(questionType), unitIndex, s.setIndex)), true)
  }

  /** The set loop of `process_completed_job`: fill in the images, number the
      questions, render; a render error only leaves that set uncounted, an
      out-of-range request raises and leaves the later sets untouched.
      `renderOk(k)` says whether rendering set `k` of the job succeeds. */
  function ProcessSets(sets: seq<SetData>, results: ImageResults, courseId: string, unitIndex: int, questionType: string,
                       renderOk: int -> bool): (r: Processed)
    ensures |r.sets| == |sets|
  {
    if sets == [] then Processed([], Rendered(0))
    else NextSet(ProcessSets(sets[..|sets| - 1], results, courseId, unitIndex, questionType, renderOk), sets[|sets| - 1], |sets| - 1,
                 results, courseId, unitIndex, questionType, renderOk)
  }

  /** One turn of the set loop, on set `k`: after an exception the set is
      kept as it is. */
  function NextSet(before: Processed, s: SetData, k: int, results: ImageResults, courseId: string, unitIndex: int,
                   questionType: string, renderOk: int -> bool): (r: Processed)
    ensures |r.sets| == |before.sets| + 1
  {
    if before.outcome.Raised? then Processed(before.sets + [s], Raised)
    else
      var done := ProcessSet(s, results, courseId, unitIndex, questionType);
      if !done.complete then Processed(before.sets + [done.data], Raised)
      else Processed(before.sets + [done.data], Rendered(before.outcome.count + if renderOk(k) then 1 else 0))
  }

  /** The body of the set loop on one set: its questions in an array, as the
      stored list is changed in place. */
  method ProcessSetInPlace(s: SetData, results: ImageResults, courseId: string, unitIndex: int, questionType: string)
    returns (r: SetOutcome)
    ensures r == ProcessSet(s, results, courseId, unitIndex, questionType)
  {
    var questions := new Question[|s.questions|](i requires 0 <= i < |s.questions| => s.questions[i]);
    assert questions[..] == s.questions;
    var complete := FillImagesInPlace(questions, s.imageRequests, results);
    if !complete {
      return SetOutcome(s.(questions := questions[..]), false);
    }
    AssignQuestionIdsForSet(questions, courseId, unitIndex, s.setIndex, questionType);
    return SetOutcome(s.(questions := questions[..]), true);
  }

  /** How many of the first `n` sets render. */
  function RenderedCount(renderOk: int -> bool, n: nat): nat {
    if n == 0 then 0 else RenderedCount(renderOk, n - 1) + if renderOk(n - 1) then 1 else 0
  }

  /** Every request of every set names a question. */
  predicate AllInRange(sets: seq<SetData>) {
    forall k, i | 0 <= k < |sets| && 0 <= i < |sets[k].imageRequests| ::
      InRange(sets[k].imageRequests[i].questionIndex, |sets[k].questions|)
  }

  /** When every request names a question, every set is filled and numbered,
      and the count is the number of sets whose rendering succeeds: a failed
      render does not stop the later sets. */
  lemma {:induction false} ProcessSetsComplete(sets: seq<SetData>, results: ImageResults, courseId: string, unitIndex: int,
                                               questionType: string, renderOk: int -> bool)
    requires AllInRange(sets)
    ensures ProcessSets(sets, results, courseId, unitIndex, questionType, renderOk).outcome == Rendered(RenderedCount(renderOk, |sets|))
    ensures forall k | 0 <= k < |sets| ::
      ProcessSets(sets, results, courseId, unitIndex, questionType, renderOk).sets[k]
        == ProcessSet(sets[k], results, courseId, unitIndex, questionType).data
  {
    if sets != [] {
      var init := sets[..|sets| - 1];
      var s := sets[|sets| - 1];
      AllInRangeSnoc(sets);
      ProcessSetsComplete(init, results, courseId, unitIndex, questionType, renderOk);
      FillImagesExact(s.questions, s.imageRequests, results);
      var before := ProcessSets(init, results, courseId, unitIndex, questionType, renderOk);
      var done := ProcessSet(s, results, courseId, unitIndex, questionType);
      assert done.complete;
      var r := ProcessSets(sets, results, courseId, unitIndex, questionType, renderOk);
      assert r == NextSet(before, s, |sets| - 1, results, courseId, unitIndex, questionType, renderOk);
      assert r.sets == before.sets + [done.data];
      forall k | 0 <= k < |sets|
        ensures r.sets[k] == ProcessSet(sets[k], results, courseId, unitIndex, questionType).data
      {
        if k < |init| {
          assert init[k] == sets[k];
        }
      }
    }
  }

  /** A set whose requests all name a question is filled in and numbered. */
  lemma ProcessSetComplete(s: SetData, results: ImageResults, courseId: string, unitIndex: int, questionType: string)
    requires forall i | 0 <= i < |s.imageRequests| :: InRange(s.imageRequests[i].questionIndex, |s.questions|)
    ensures ProcessSet(s, results, courseId, unitIndex, questionType) == SetOutcome(s.(questions :=
      RepairLoop.WithIds(FillImages(s.questions, s.imageRequests, results).questions, courseId, IdKind(questionType), unitIndex, s.setIndex)), true)
  {
    FillImagesExact(s.questions, s.imageRequests, results);
  }

  lemma AllInRangeSnoc(sets: seq<SetData>)
    requires sets != []
    ensures var s := sets[|sets| - 1];
      AllInRange(sets) <==>
        && AllInRange(sets[..|sets| - 1])
        && (forall i | 0 <= i < |s.imageRequests| :: InRange(s.imageRequests[i].questionIndex, |s.questions|))
  {
    var init := sets[..|sets| - 1];
    forall k | 0 <= k < |init| ensures init[k] == sets[k] { }
  }

  /** A set whose request names no question makes processing raise. */
  lemma {:induction false} ProcessSetsRaises(sets: seq<SetData>, results: ImageResults, courseId: string, unitIndex: int,
                                             questionType: string, renderOk: int -> bool)
    requires !AllInRange(sets)
    ensures ProcessSets(sets, results, courseId, unitIndex, questionType, renderOk).outcome.Raised?
  {
    var init := sets[..|sets| - 1];
    var s := sets[|sets| - 1];
    AllInRangeSnoc(sets);
    if AllInRange(init) {
      FillImagesExact(s.questions, s.imageRequests, results);
    } else {
      ProcessSetsRaises(init, results, courseId, unitIndex, questionType, renderOk);
    }
  }

  /** `process_completed_job`: a failed download ends it with 0 and no set
      touched; a question type without a template raises; otherwise the set
      loop runs, changing the job's sets in place. `retrieved` is the
      download (`None` when it raised). */
  method ProcessCompletedJob(job: JobState, retrieved: Option<ImageResults>, renderOk: int -> bool)
    returns (r: Processed)
    ensures retrieved.None? ==> r == Processed(job.sets, Rendered(0))
    ensures retrieved.Some? && job.questionType != "mcq" && job.questionType != "frq" ==> r == Processed(job.sets, Raised)
    ensures retrieved.Some? && (job.questionType == "mcq" || job.questionType == "frq") ==>
      r == ProcessSets(job.sets, retrieved.value, job.courseId, job.unitIndex, job.questionType, renderOk)
  {
    if retrieved.None? {
      return Processed(job.sets, Rendered(0));
    }
    var results := retrieved.value;
    if job.questionType != "mcq" && job.questionType != "frq" {
      return Processed(job.sets, Raised);
    }
    var sets := job.sets;
    var rendered := 0;
    for k := 0 to |sets|
      invariant |sets| == |job.sets|
      invariant sets[k..] == job.sets[k..]
      invariant ProcessSets(job.sets[..k], results, job.courseId, job.unitIndex, job.questionType, renderOk)
        == Processed(sets[..k], Rendered(rendered))
    {
      ghost var before := Processed(sets[..k], Rendered(rendered));
      assert sets[k] == job.sets[k];
      var done := ProcessSetInPlace(sets[k], results, job.courseId, job.unitIndex, job.questionType);
      ProcessSetsSnoc(job.sets, results, job.courseId, job.unitIndex, job.questionType, renderOk, k);
      assert ProcessSets(job.sets[..k + 1], results, job.courseId, job.unitIndex, job.questionType, renderOk)
        == NextSet(before, job.sets[k], k, results, job.courseId, job.unitIndex, job.questionType, renderOk);
      ReplaceAt(sets, k, done.data, job.sets);
      sets := sets[k := done.data];
      if !done.complete {
        ProcessSetsRaisedTail(job.sets, results, job.courseId, job.unitIndex, job.questionType, renderOk, k + 1);
        return Processed(sets, Raised);
      }
      if renderOk(k) {
        rendered := rendered + 1;
      }
    }
    assert job.sets[..|sets|] == job.sets && sets[..|sets|] == sets;
    return Processed(sets, Rendered(rendered));
  }

  /** Replacing element `k` of a list that agrees with `orig` from `k` on. */
  lemma ReplaceAt<T>(s: seq<T>, k: nat, x: T, orig: seq<T>)
    requires k < |s| == |orig| && s[k..] == orig[k..]
    ensures s[k := x][..k + 1] == s[..k] + [x]
    ensures s[k := x][k + 1..] == orig[k + 1..]
    ensures s[k := x] == s[k := x][..k + 1] + orig[k + 1..]
  {
    assert s[k + 1..] == s[k..][1..];
  }

  /** The set loop's step: set `k` after the sets before it. */
  lemma ProcessSetsSnoc(sets: seq<SetData>, results: ImageResults, courseId: string, unitIndex: int,
                        questionType: string, renderOk: int -> bool, k: nat)
    requires k < |sets|
    ensures ProcessSets(sets[..k + 1], results, courseId, unitIndex, questionType, renderOk) ==
      NextSet(ProcessSets(sets[..k], results, courseId, unitIndex, questionType, renderOk), sets[k], k,
              results, courseId, unitIndex, questionType, renderOk)
  {
    assert sets[..k + 1][..k] == sets[..k];
  }

  /** Once processing has raised, the later sets are kept as they are. */
  lemma {:induction false} ProcessSetsRaisedTail(sets: seq<SetData>, results: ImageResults, courseId: string, unitIndex: int,
                                                 questionType: string, renderOk: int -> bool, k: nat)
    requires k <= |sets|
    requires ProcessSets(sets[..k], results, courseId, unitIndex, questionType, renderOk).outcome.Raised?
    ensures ProcessSets(sets, results, courseId, unitIndex, questionType, renderOk)
      == Processed(ProcessSets(sets[..k], results, courseId, unitIndex, questionType, renderOk).sets + sets[k..], Raised)
    decreases |sets| - k
  {
    if k < |sets| {
      assert sets[..k + 1][..k] == sets[..k];
      assert ProcessSets(sets[..k + 1], results, courseId, unitIndex, questionType, renderOk)
        == Processed(ProcessSets(sets[..k], results, courseId, unitIndex, questionType, renderOk).sets + [sets[k]], Raised);
      ProcessSetsRaisedTail(sets, results, courseId, unitIndex, questionType, renderOk, k + 1);
      assert sets[k..] == [sets[k]] + sets[k + 1..];
    } else {
      assert sets[..k] == sets;
    }
  }

  // ---- the poll loop ----

  /** What asking the batch service for a job's status gives. */
  datatype Check = CheckRaised | Status(state: string)

  const Succeeded := "JOB_STATE_SUCCEEDED"

  /** The four states after which a job is done. */
  predicate IsTerminal(state: string) {
    state in {"JOB_STATE_SUCCEEDED", "JOB_STATE_FAILED", "JOB_STATE_CANCELLED", "JOB_STATE_EXPIRED"}
  }

  /** What one visit of the poll loop does with a job. */
  datatype Decision = Keep | Done(rendered: nat, failed: nat)

  /** The service, the download and the renderer as seen by one poll pass. */
  datatype Service = Service(
    check: JobState -> Check,
    retrieve: JobState -> Option<ImageResults>,
    renderOk: (JobState, int) -> bool)

  /** The outcome of processing a succeeded job. */
  function Outcome(job: JobState, svc: Service): JobOutcome {
    var retrieved := svc.retrieve(job);
    if retrieved.None? then Rendered(0)
    else if job.questionType != "mcq" && job.questionType != "frq" then Raised
    else ProcessSets(job.sets, retrieved.value, job.courseId, job.unitIndex, job.questionType, k => svc.renderOk(job, k)).outcome
  }

  /** A job stays pending while its status is not terminal or when handling
      it raises; a succeeded job adds its rendered sets, any other terminal
      state counts one failure. */
  function Decide(job: JobState, svc: Service): (d: Decision)
    ensures d.Done? <==>
      && svc.check(job).Status?
      && IsTerminal(svc.check(job).state)
      && (svc.check(job).state == Succeeded ==> Outcome(job, svc).Rendered?)
    ensures d.Done? && svc.check(job).state != Succeeded ==> d == Done(0, 1)
    ensures d.Done? && svc.check(job).state == Succeeded ==> d == Done(Outcome(job, svc).count, 0)
  {
    match svc.check(job)
    case CheckRaised => Keep
    case Status(state) =>
      if !IsTerminal(state) then Keep
      else if state == Succeeded then
        match Outcome(job, svc)
        case Raised => Keep
        case Rendered(n) => Done(n, 0)
      else Done(0, 1)
  }

  /** `pending_jobs.remove(job)`: drops the first job equal to `job`. */
  function RemoveFirst(jobs: seq<JobState>, job: JobState): (r: seq<JobState>)
    ensures job in jobs ==> multiset(r) == multiset(jobs) - multiset{job}
    ensures job !in jobs ==> r == jobs
  {
    if jobs == [] then []
    else
      assert jobs == [jobs[0]] + jobs[1..];
      if jobs[0] == job then jobs[1..]
      else
        assert job in jobs ==> job in jobs[1..];
        [jobs[0]] + RemoveFirst(jobs[1..], job)
  }

  /** The state of a pass: the pending jobs, the totals and the jobs whose
      state files were deleted. */
  datatype PassState = PassState(pending: seq<JobState>, rendered: nat, failed: nat, marked: seq<string>)

  /** One pass over a copy of the pending jobs. */
  function Pass(visited: seq<JobState>, start: PassState, svc: Service): PassState {
    if visited == [] then start
    else
      var s := Pass(visited[..|visited| - 1], start, svc);
      var job := visited[|visited| - 1];
      match Decide(job, svc)
      case Keep => s
      case Done(n, f) => PassState(RemoveFirst(s.pending, job), s.rendered + n, s.failed + f, s.marked + [job.jobName])
  }

  /** The jobs of `jobs` that a pass keeps. */
  function Kept(jobs: seq<JobState>, svc: Service): seq<JobState> {
    if jobs == [] then []
    else Kept(jobs[..|jobs| - 1], svc) + if Decide(jobs[|jobs| - 1], svc).Keep? then [jobs[|jobs| - 1]] else []
  }

  /** After a pass over all pending jobs, the pending jobs are exactly the
      kept ones, and one state file is deleted per job that left. */
  lemma {:induction false} PassKeeps(visited: seq<JobState>, svc: Service, rest: seq<JobState>, rendered: nat, failed: nat)
    ensures var s := Pass(visited, PassState(visited + rest, rendered, failed, []), svc);
      && multiset(s.pending) == multiset(Kept(visited, svc)) + multiset(rest)
      && |s.marked| == |visited| - |Kept(visited, svc)|
      && s.rendered >= rendered && s.failed >= failed
  {
    if visited != [] {
      var init := visited[..|visited| - 1];
      var job := visited[|visited| - 1];
      assert visited + rest == init + ([job] + rest);
      PassKeeps(init, svc, [job] + rest, rendered, failed);
      PassPrefix(init, visited, svc, PassState(visited + rest, rendered, failed, []));
      var s := Pass(init, PassState(visited + rest, rendered, failed, []), svc);
      assert job in multiset(s.pending);
      KeptLength(init, svc);
    }
  }

  lemma {:induction false} KeptLength(jobs: seq<JobState>, svc: Service)
    ensures |Kept(jobs, svc)| <= |jobs|
  {
    if jobs != [] {
      KeptLength(jobs[..|jobs| - 1], svc);
    }
  }

  lemma PassPrefix(init: seq<JobState>, visited: seq<JobState>, svc: Service, start: PassState)
    requires visited != [] && init == visited[..|visited| - 1]
    ensures Pass(visited, start, svc) == match Decide(visited[|visited| - 1], svc)
      case Keep => Pass(init, start, svc)
      case Done(n, f) =>
        var s := Pass(init, start, svc);
        PassState(RemoveFirst(s.pending, visited[|visited| - 1]), s.rendered + n, s.failed + f, s.marked + [visited[|visited| - 1].jobName])
  {
  }

  /** One iteration of `main`'s poll loop. */
  method PollPass(pending: seq<JobState>, rendered: nat, failed: nat, svc: Service)
    returns (s: PassState)
    ensures s == Pass(pending, PassState(pending, rendered, failed, []), svc)
  {
    s := PassState(pending, rendered, failed, []);
    var snapshot := pending;
    for k := 0 to |snapshot|
      invariant s == Pass(snapshot[..k], PassState(pending, rendered, failed, []), svc)
    {
      assert snapshot[..k + 1][..k] == snapshot[..k];
      var job := snapshot[k];
      var c := svc.check(job);
      if c.CheckRaised? || !IsTerminal(c.state) {
        continue;
      }
      if c.state == Succeeded {
        var r := ProcessCompletedJob(job, svc.retrieve(job), i => svc.renderOk(job, i));
        if r.outcome.Raised? {
          continue;
        }
        s := s.(rendered := s.rendered + r.outcome.count);
      } else {
        s := s.(failed := s.failed + 1);
      }
      s := s.(pending := RemoveFirst(s.pending, job), marked := s.marked + [job.jobName]);
    }
    assert snapshot[..|snapshot|] == snapshot;
  }

  /** `main`'s poll loop, run for at most `rounds` passes (`svcAt(i)` is the
      service as pass `i` sees it): it stops only when no job is pending or
      the passes run out. */
  method PollLoop(pending: seq<JobState>, svcAt: nat -> Service, rounds: nat)
    returns (s: PassState, passes: nat)
    ensures passes <= rounds
    ensures passes < rounds ==> s.pending == []
    ensures |s.pending| <= |pending|
  {
    s := PassState(pending, 0, 0, []);
    passes := 0;
    while s.pending != [] && passes < rounds
      invariant passes <= rounds
      invariant |s.pending| <= |pending|
      decreases rounds - passes
    {
      var next := PollPass(s.pending, s.rendered, s.failed, svcAt(passes));
      PassKeeps(s.pending, svcAt(passes), [], s.rendered, s.failed);
      KeptLength(s.pending, svcAt(passes));
      assert s.pending + [] == s.pending;
      assert |next.pending| <= |s.pending| by {
        assert |multiset(next.pending)| == |multiset(Kept(s.pending, svcAt(passes)))|;
      }
      s := PassState(next.pending, next.rendered, next.failed, s.marked + next.marked);
      passes := passes + 1;
    }
  }
}

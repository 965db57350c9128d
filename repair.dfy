/** The generate-validate-repair session shared by both compilers
    (`process_single_set`): one initial call, then up to four repair calls
    while fewer questions than the target have been accepted; the coverage
    tracker; and the numbering of a finished set. The model's replies are an
    input: reply 0 answers the initial call, reply k the k-th repair call. */
module RepairLoop {
  import opened PyStrings
  import opened Records
  import opened Rows
  import opened ErrorSummary

  const MaxRetriesPerSet := 4

  /** What a call to the model gives back: its text (`response.text or ""`),
      or an exception. */
  datatype Reply = Text(text: string) | CallFailed

  /** What the pipeline asks the model for. The initial request names the
      number of questions and the least-covered LOs; a repair request the
      number missing (as logged), the number asked for, the error digest and
      the first ten allowed codes of each kind. */
  datatype Request =
    | Initial(count: int, priorityLos: seq<string>)
    | Repair(missing: int, count: int, errorSummary: string, skillsPreview: string, losPreview: string)

  /** The state of a session: the accepted questions, the rejection reports
      and the requests made so far. */
  datatype Session = Session(questions: seq<Question>, reports: seq<Report>, requests: seq<Request>)

  /** How many questions a repair round asks for when `missing` are missing:
      three extra for a small shortfall, otherwise half the shortfall again,
      at least two and at most ten. */
  function RequestCount(missing: int): (r: int)
    ensures missing + 2 <= r <= missing + 10
  {
    if missing <= 3 then missing + 3
    else
      var half := missing / 2;
      var buffer := if half < 2 then 2 else if half > 10 then 10 else half;
      missing + buffer
  }

  /** `",".join(allowed[:10])` */
  function Preview(allowed: seq<string>): string {
    Join(",", PyPrefix(allowed, 10))
  }

  /** The text an initial call yields; a failed call counts as empty text. */
  function InitialText(reply: Reply): string {
    match reply
    case Text(t) => t
    case CallFailed => ""
  }

  /** What the rows of one reply yield: the accepted questions and the
      rejection reports. */
  datatype Batch = Batch(valid: seq<Question>, invalid: seq<Report>)

  /** The batch of a reply's text under the row validator `classify`. */
  function Harvested(text: string, classify: seq<string> -> Verdict): Batch {
    var rows := TsvRows(text);
    Batch(Accepted(rows, classify), Rejected(rows, classify))
  }

  /** What stays fixed during a session: the number of questions wanted,
      what a reply yields, the error digest of the reports and the two
      previews of allowed codes. */
  datatype Setup = Setup(target: int, harvest: string -> Batch,
                         summarize: seq<Report> -> string, skillsPreview: string, losPreview: string)

  /** The setup of a session validating rows with `classify` against the
      allow lists `c`. */
  function SetupFor(target: int, classify: seq<string> -> Verdict, c: Constraints): (u: Setup)
    ensures u.target == target
    ensures forall text {:trigger Harvested(text, classify)} :: u.harvest(text) == Harvested(text, classify)
    ensures forall reports {:trigger Summary(reports)} :: u.summarize(reports) == Summary(reports)
    ensures u.skillsPreview == Preview(c.allowedSkillCodes) && u.losPreview == Preview(c.allowedLoIds)
  {
    Setup(target, text => Harvested(text, classify), Summary, Preview(c.allowedSkillCodes), Preview(c.allowedLoIds))
  }

  /** The repair request of a round made with the state `s`. */
  function RepairRequest(s: Session, u: Setup): Request {
    var missing := u.target - |s.questions|;
    Repair(missing, RequestCount(missing), u.summarize(s.reports), u.skillsPreview, u.losPreview)
  }

  /** The state after adding what a reply's rows yield. */
  function Absorb(s: Session, text: string, request: Request, u: Setup): Session {
    var batch := u.harvest(text);
    Session(s.questions + batch.valid, s.reports + batch.invalid, s.requests + [request])
  }

  /** The repair rounds from round `round` on, given the state before it. */
  function RepairFrom(replies: seq<Reply>, round: nat, s: Session, u: Setup): (r: Session)
    requires |replies| == MaxRetriesPerSet + 1 && 1 <= round
    decreases MaxRetriesPerSet + 1 - round
  {
    if |s.questions| >= u.target || round > MaxRetriesPerSet then s
    else
      var request := RepairRequest(s, u);
      match replies[round]
      case CallFailed => s.(requests := s.requests + [request])
      case Text(t) => RepairFrom(replies, round + 1, Absorb(s, t, request, u), u)
  }

  /** The state after the initial call. */
  function Start(replies: seq<Reply>, priorityLos: seq<string>, u: Setup): Session
    requires |replies| == MaxRetriesPerSet + 1
  {
    var batch := u.harvest(InitialText(replies[0]));
    Session(batch.valid, batch.invalid, [Initial(u.target, priorityLos)])
  }

  /** The whole session: the initial call, then the repair rounds. */
  function RunSession(replies: seq<Reply>, priorityLos: seq<string>, u: Setup): Session
    requires |replies| == MaxRetriesPerSet + 1
  {
    RepairFrom(replies, 1, Start(replies, priorityLos, u), u)
  }

  /** `r` holds everything `s` holds, at the front. */
  predicate Extends(s: Session, r: Session) {
    && |s.questions| <= |r.questions| && r.questions[..|s.questions|] == s.questions
    && |s.reports| <= |r.reports| && r.reports[..|s.reports|] == s.reports
    && |s.requests| <= |r.requests| && r.requests[..|s.requests|] == s.requests
  }

  lemma PrefixOfPrefix<T>(a: seq<T>, b: seq<T>, c: seq<T>)
    requires |a| <= |b| && b[..|a|] == a
    requires |b| <= |c| && c[..|b|] == b
    ensures c[..|a|] == a
  {
    assert c[..|a|] == c[..|b|][..|a|];
  }

  lemma ExtendsTransitive(s: Session, t: Session, r: Session)
    requires Extends(s, t) && Extends(t, r)
    ensures Extends(s, r)
  {
    PrefixOfPrefix(s.questions, t.questions, r.questions);
    PrefixOfPrefix(s.reports, t.reports, r.reports);
    PrefixOfPrefix(s.requests, t.requests, r.requests);
  }

  lemma AbsorbExtends(s: Session, text: string, request: Request, u: Setup)
    ensures Extends(s, Absorb(s, text, request, u))
  {
    var r := Absorb(s, text, request, u);
    assert r.questions[..|s.questions|] == s.questions;
    assert r.reports[..|s.reports|] == s.reports;
    assert r.requests[..|s.requests|] == s.requests;
  }

  /** The repair rounds keep what was held: questions, reports and requests
      held before the rounds stay at the front. */
  lemma {:induction false} RepairFromKeeps(replies: seq<Reply>, round: nat, s: Session, u: Setup)
    requires |replies| == MaxRetriesPerSet + 1 && 1 <= round
    ensures Extends(s, RepairFrom(replies, round, s, u))
    decreases MaxRetriesPerSet + 1 - round
  {
    if |s.questions| < u.target && round <= MaxRetriesPerSet {
      var request := RepairRequest(s, u);
      match replies[round]
      case CallFailed =>
        assert (s.requests + [request])[..|s.requests|] == s.requests;
      case Text(t) =>
        var next := Absorb(s, t, request, u);
        RepairFromKeeps(replies, round + 1, next, u);
        AbsorbExtends(s, t, request, u);
        ExtendsTransitive(s, next, RepairFrom(replies, round + 1, next, u));
    }
  }

  /** Each repair round adds one request, made while questions were missing
      and asking for more than were missing; at most one per remaining round. */
  lemma {:induction false} RepairFromRequests(replies: seq<Reply>, round: nat, s: Session, u: Setup)
    requires |replies| == MaxRetriesPerSet + 1 && 1 <= round <= MaxRetriesPerSet + 1
    ensures var r := RepairFrom(replies, round, s, u);
      && |s.requests| <= |r.requests| <= |s.requests| + MaxRetriesPerSet + 1 - round
      && forall k | |s.requests| <= k < |r.requests| ::
           r.requests[k].Repair? && 1 <= r.requests[k].missing <= u.target
           && r.requests[k].count == RequestCount(r.requests[k].missing)
    decreases MaxRetriesPerSet + 1 - round
  {
    if |s.questions| < u.target && round <= MaxRetriesPerSet {
      var request := RepairRequest(s, u);
      match replies[round]
      case CallFailed =>
      case Text(t) =>
        var next := Absorb(s, t, request, u);
        RepairFromRequests(replies, round + 1, next, u);
        RepairFromKeeps(replies, round + 1, next, u);
        var r := RepairFrom(replies, round + 1, next, u);
        assert r.requests[|s.requests|] == next.requests[..|next.requests|][|s.requests|];
    }
  }

  /** The rounds end short of the target only when all rounds are used or
      the call of the last round failed. */
  lemma {:induction false} RepairFromStops(replies: seq<Reply>, round: nat, s: Session, u: Setup)
    requires |replies| == MaxRetriesPerSet + 1 && 1 <= round <= MaxRetriesPerSet + 1
    ensures var r := RepairFrom(replies, round, s, u);
      var last := round - 1 + |r.requests| - |s.requests|;
      |r.questions| < u.target ==>
        last == MaxRetriesPerSet || (round <= last <= MaxRetriesPerSet && replies[last] == CallFailed)
    decreases MaxRetriesPerSet + 1 - round
  {
    if |s.questions| < u.target && round <= MaxRetriesPerSet {
      var request := RepairRequest(s, u);
      match replies[round]
      case CallFailed =>
      case Text(t) =>
        var next := Absorb(s, t, request, u);
        RepairFromStops(replies, round + 1, next, u);
    }
  }

  /** A whole session: the initial request comes first, at most four repair
      requests follow, each made while questions were missing and asking for
      more than were missing, and a session short of the target has used all
      its repair rounds or stopped at a failed repair call. */
  lemma SessionShape(replies: seq<Reply>, priorityLos: seq<string>, u: Setup)
    requires |replies| == MaxRetriesPerSet + 1
    ensures var s := RunSession(replies, priorityLos, u);
      && 1 <= |s.requests| <= MaxRetriesPerSet + 1
      && s.requests[0] == Initial(u.target, priorityLos)
      && (forall k | 1 <= k < |s.requests| ::
            s.requests[k].Repair? && 1 <= s.requests[k].missing <= u.target
            && s.requests[k].count > s.requests[k].missing)
      && (|s.questions| < u.target ==>
            |s.requests| == MaxRetriesPerSet + 1 || replies[|s.requests| - 1] == CallFailed)
  {
    var start := Start(replies, priorityLos, u);
    RepairFromKeeps(replies, 1, start, u);
    RepairFromRequests(replies, 1, start, u);
    RepairFromStops(replies, 1, start, u);
    var s := RunSession(replies, priorityLos, u);
    assert s.requests[0] == s.requests[..1][0];
  }

  /** The questions of the initial reply stay at the front of the session. */
  lemma SessionKeepsInitial(replies: seq<Reply>, priorityLos: seq<string>, u: Setup)
    requires |replies| == MaxRetriesPerSet + 1
    ensures var s := RunSession(replies, priorityLos, u);
      var first := u.harvest(InitialText(replies[0])).valid;
      |first| <= |s.questions| && s.questions[..|first|] == first
  {
    RepairFromKeeps(replies, 1, Start(replies, priorityLos, u), u);
  }

  /** Every question any reply can yield satisfies `p`. */
  ghost predicate YieldsOnly(u: Setup, p: Question -> bool) {
    forall text, k | 0 <= k < |u.harvest(text).valid| :: p(u.harvest(text).valid[k])
  }

  lemma {:induction false} RepairFromYields(replies: seq<Reply>, round: nat, s: Session, u: Setup, p: Question -> bool)
    requires |replies| == MaxRetriesPerSet + 1 && 1 <= round
    requires YieldsOnly(u, p)
    requires forall k | 0 <= k < |s.questions| :: p(s.questions[k])
    ensures var r := RepairFrom(replies, round, s, u);
      forall k | 0 <= k < |r.questions| :: p(r.questions[k])
    decreases MaxRetriesPerSet + 1 - round
  {
    if |s.questions| < u.target && round <= MaxRetriesPerSet {
      var request := RepairRequest(s, u);
      match replies[round]
      case CallFailed =>
      case Text(t) =>
        var next := Absorb(s, t, request, u);
        var batch := u.harvest(t);
        assert forall k | 0 <= k < |batch.valid| :: p(batch.valid[k]);
        assert forall k | 0 <= k < |next.questions| :: p(next.questions[k]) by {
          forall k | 0 <= k < |next.questions|
            ensures p(next.questions[k])
          {
            if k >= |s.questions| {
              assert next.questions[k] == batch.valid[k - |s.questions|];
            }
          }
        }
        RepairFromYields(replies, round + 1, next, u, p);
    }
  }

  /** A property every reply's questions have holds of every question the
      session gathers. */
  lemma SessionYields(replies: seq<Reply>, priorityLos: seq<string>, u: Setup, p: Question -> bool)
    requires |replies| == MaxRetriesPerSet + 1
    requires YieldsOnly(u, p)
    ensures var s := RunSession(replies, priorityLos, u);
      forall k | 0 <= k < |s.questions| :: p(s.questions[k])
  {
    var start := Start(replies, priorityLos, u);
    var batch := u.harvest(InitialText(replies[0]));
    assert forall k | 0 <= k < |batch.valid| :: p(batch.valid[k]);
    RepairFromYields(replies, 1, start, u, p);
  }

  /** Parses a reply and validates its rows. */
  method Harvest(text: string, classify: seq<string> -> Verdict) returns (valid: seq<Question>, invalid: seq<Report>)
    ensures Batch(valid, invalid) == Harvested(text, classify)
  {
    var rows := ParseTsv(text);
    valid, invalid := ValidateRows(rows, classify);
  }

  /** Builds the request of a repair round: the counts, the error digest of
      the reports so far and the previews. */
  method MakeRepairRequest(s: Session, u: Setup, c: Constraints) returns (request: Request)
    requires forall reports {:trigger Summary(reports)} :: u.summarize(reports) == Summary(reports)
    requires u.skillsPreview == Preview(c.allowedSkillCodes) && u.losPreview == Preview(c.allowedLoIds)
    ensures request == RepairRequest(s, u)
  {
    var missing := u.target - |s.questions|;
    var requestCount;
    if missing <= 3 {
      requestCount := missing + 3;
    } else {
      var half := missing / 2;
      var buffer := if half < 2 then 2 else if half > 10 then 10 else half;
      requestCount := missing + buffer;
    }
    var errorSummary := SummarizeInvalidReports(s.reports);
    assert errorSummary == u.summarize(s.reports);
    request := Repair(missing, requestCount, errorSummary, Preview(c.allowedSkillCodes), Preview(c.allowedLoIds));
  }

  /** The session loop of `process_single_set`. */
  method GenerateSet(replies: seq<Reply>, priorityLos: seq<string>, classify: seq<string> -> Verdict,
                     u: Setup, c: Constraints)
    returns (s: Session)
    requires |replies| == MaxRetriesPerSet + 1
    requires forall text {:trigger Harvested(text, classify)} :: u.harvest(text) == Harvested(text, classify)
    requires forall reports {:trigger Summary(reports)} :: u.summarize(reports) == Summary(reports)
    requires u.skillsPreview == Preview(c.allowedSkillCodes) && u.losPreview == Preview(c.allowedLoIds)
    ensures s == RunSession(replies, priorityLos, u)
  {
    var valid, invalidInitial := Harvest(InitialText(replies[0]), classify);
    s := Session(valid, invalidInitial, [Initial(u.target, priorityLos)]);
    assert s == Start(replies, priorityLos, u);
    ghost var goal := RepairFrom(replies, 1, s, u);
    var round := 0;
    while |s.questions| < u.target && round < MaxRetriesPerSet
      invariant 0 <= round <= MaxRetriesPerSet
      invariant RepairFrom(replies, round + 1, s, u) == goal
      decreases MaxRetriesPerSet - round
    {
      ghost var before := s;
      round := round + 1;
      var request := MakeRepairRequest(s, u, c);
      match replies[round] {
        case CallFailed =>
          return s.(requests := s.requests + [request]);
        case Text(t) =>
          var validRepair, invalidRepair := Harvest(t, classify);
          s := Session(s.questions + validRepair, s.reports + invalidRepair, s.requests + [request]);
          assert s == Absorb(before, t, request, u);
          assert RepairFrom(replies, round, before, u) == RepairFrom(replies, round + 1, s, u);
      }
    }
  }

  // ---- numbering a finished set ----

  /** `{course_id}_{kind}_U{unit_index + 1}S{set_index + 1}Q{i}` */
  function QuestionId(courseId: string, kind: string, unitIndex: int, setIndex: int, i: int): string {
    courseId + "_" + kind + "_U" + IntToString(unitIndex + 1) + "S" + IntToString(setIndex + 1) + "Q" + IntToString(i)
  }

  /** Different positions in a set get different ids. */
  lemma QuestionIdInjective(courseId: string, kind: string, unitIndex: int, setIndex: int, i: int, j: int)
    requires i != j
    ensures QuestionId(courseId, kind, unitIndex, setIndex, i) != QuestionId(courseId, kind, unitIndex, setIndex, j)
  {
    var prefix := courseId + "_" + kind + "_U" + IntToString(unitIndex + 1) + "S" + IntToString(setIndex + 1) + "Q";
    IntToStringInjective(i, j);
    assert QuestionId(courseId, kind, unitIndex, setIndex, i)[|prefix|..] == IntToString(i);
    assert QuestionId(courseId, kind, unitIndex, setIndex, j)[|prefix|..] == IntToString(j);
  }

  /** The questions with the ids of a set, numbered from 1. */
  function WithIds(qs: seq<Question>, courseId: string, kind: string, unitIndex: int, setIndex: int): (r: seq<Question>)
    ensures |r| == |qs|
    ensures forall i | 0 <= i < |r| :: r[i] == qs[i].(id := Some(QuestionId(courseId, kind, unitIndex, setIndex, i + 1)))
  {
    seq(|qs|, i requires 0 <= i < |qs| => qs[i].(id := Some(QuestionId(courseId, kind, unitIndex, setIndex, i + 1))))
  }

  /** Numbered questions have pairwise different ids. */
  lemma WithIdsDistinct(qs: seq<Question>, courseId: string, kind: string, unitIndex: int, setIndex: int)
    ensures var r := WithIds(qs, courseId, kind, unitIndex, setIndex);
      forall i, j | 0 <= i < j < |r| :: r[i].id != r[j].id
  {
    var r := WithIds(qs, courseId, kind, unitIndex, setIndex);
    forall i, j | 0 <= i < j < |r| ensures r[i].id != r[j].id {
      var a, b := QuestionId(courseId, kind, unitIndex, setIndex, i + 1), QuestionId(courseId, kind, unitIndex, setIndex, j + 1);
      QuestionIdInjective(courseId, kind, unitIndex, setIndex, i + 1, j + 1);
      assert r[i].id == Some(a) && r[j].id == Some(b);
    }
  }

  /** `assign_question_ids` / `assign_frq_ids`: sets the id of each question
      of the set in place. */
  method AssignIds(qs: array<Question>, courseId: string, kind: string, unitIndex: int, setIndex: int)
    modifies qs
    ensures qs[..] == WithIds(old(qs[..]), courseId, kind, unitIndex, setIndex)
  {
    for i := 0 to qs.Length
      invariant forall k | 0 <= k < i :: qs[k] == old(qs[k]).(id := Some(QuestionId(courseId, kind, unitIndex, setIndex, k + 1)))
      invariant forall k | i <= k < qs.Length :: qs[k] == old(qs[k])
    {
      qs[i] := qs[i].(id := Some(QuestionId(courseId, kind, unitIndex, setIndex, i + 1)));
    }
  }

  /** Numbers the kept questions of a set, in an array as the pipeline
      does, and gives them back. */
  method NumberSet(questions: seq<Question>, courseId: string, kind: string, unitIndex: int, setIndex: int)
    returns (numbered: seq<Question>)
    ensures numbered == WithIds(questions, courseId, kind, unitIndex, setIndex)
  {
    var kept := new Question[|questions|](i requires 0 <= i < |questions| => questions[i]);
    assert kept[..] == questions;
    AssignIds(kept, courseId, kind, unitIndex, setIndex);
    numbered := kept[..];
  }

  // ---- coverage ----

  /** The tracker after counting one list of LO ids: each tracked LO goes up
      by one per occurrence; LOs the tracker does not hold are ignored. */
  function Bump(counts: map<string, int>, los: seq<string>): map<string, int> {
    if los == [] then counts
    else
      var before := Bump(counts, los[..|los| - 1]);
      var lo := los[|los| - 1];
      if lo in before then before[lo := before[lo] + 1] else before
  }

  /** The tracker after counting the LO ids of every question. */
  function BumpAll(counts: map<string, int>, qs: seq<Question>): map<string, int> {
    if qs == [] then counts else Bump(BumpAll(counts, qs[..|qs| - 1]), qs[|qs| - 1].loIds)
  }

  /** How many times `lo` occurs in `los`. */
  function Occurrences(lo: string, los: seq<string>): nat {
    if los == [] then 0 else Occurrences(lo, los[..|los| - 1]) + (if los[|los| - 1] == lo then 1 else 0)
  }

  /** How many times `lo` occurs among the LO ids of `qs`. */
  function OccurrencesIn(lo: string, qs: seq<Question>): nat {
    if qs == [] then 0 else OccurrencesIn(lo, qs[..|qs| - 1]) + Occurrences(lo, qs[|qs| - 1].loIds)
  }

  lemma {:induction false} BumpCounts(counts: map<string, int>, los: seq<string>)
    ensures Bump(counts, los).Keys == counts.Keys
    ensures forall lo | lo in counts :: Bump(counts, los)[lo] == counts[lo] + Occurrences(lo, los)
  {
    if los != [] {
      BumpCounts(counts, los[..|los| - 1]);
    }
  }

  /** Counting a set keeps the tracked LOs and raises each by the number of
      times the set's questions name it. */
  lemma {:induction false} BumpAllCounts(counts: map<string, int>, qs: seq<Question>)
    ensures BumpAll(counts, qs).Keys == counts.Keys
    ensures forall lo | lo in counts :: BumpAll(counts, qs)[lo] == counts[lo] + OccurrencesIn(lo, qs)
  {
    if qs != [] {
      BumpAllCounts(counts, qs[..|qs| - 1]);
      BumpCounts(BumpAll(counts, qs[..|qs| - 1]), qs[|qs| - 1].loIds);
    }
  }

  /** `coverage_tracker`: how often each LO of the unit has been covered by
      saved sets. */
  class CoverageTracker {
    var counts: map<string, int>

    constructor (initial: map<string, int>)
      ensures counts == initial
    {
      counts := initial;
    }

    /** Counts the LOs of a saved set. */
    method RecordSet(qs: seq<Question>)
      modifies this
      ensures counts == BumpAll(old(counts), qs)
    {
      for i := 0 to |qs|
        invariant counts == BumpAll(old(counts), qs[..i])
      {
        var los := qs[i].loIds;
        ghost var start := counts;
        for j := 0 to |los|
          invariant counts == Bump(start, los[..j])
        {
          var lo := los[j];
          assert los[..j + 1][..j] == los[..j];
          if lo in counts {
            counts := counts[lo := counts[lo] + 1];
          }
        }
        assert los[..|los|] == los;
        assert qs[..i + 1][..i] == qs[..i];
      }
      assert qs[..|qs|] == qs;
    }
  }
}

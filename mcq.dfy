/** The multiple-choice compiler (`mcq_compiler.py`): the checks of one
    11-column TSV row, the classification of a row into a question or a
    rejection report, and the generation of one set of 25 questions. */
module McqCompiler {
  import opened PyStrings
  import opened Records
  import opened Rows
  import opened RepairLoop
  import Utility

  const QuestionsPerSet := 25
  const ColumnCount := 11
  const StimulusTypes: set<string> := {"none", "svg", "table"}

  /** The helpers of `utility_functions.py` the row checks call, which are
      not part of this model: the SVG check, the pipe-table converter and
      the pipe-table detector. */
  datatype Helpers = Helpers(
    isValidSvg: string -> bool,
    pipeTableToHtml: string -> string,
    looksLikePipeTable: string -> bool)

  /** A row the checks accept: eleven columns (difficulty, skills, LOs,
      correct index, question, four choices, stimulus type, payload); a
      known difficulty; non-blank skills, LOs, question and choices; a known
      stimulus type; an index that parses to 0..3; a payload exactly when
      the stimulus type is not `none`; no choice that looks like a table. */
  predicate WellFormedRow(cols: seq<string>, h: Helpers) {
    && |cols| == ColumnCount
    && cols[0] in Difficulties
    && !IsBlank(cols[1]) && !IsBlank(cols[2]) && !IsBlank(cols[4])
    && !IsBlank(cols[5]) && !IsBlank(cols[6]) && !IsBlank(cols[7]) && !IsBlank(cols[8])
    && cols[9] in StimulusTypes
    && ParseInt(cols[3]).Some? && 0 <= ParseInt(cols[3]).value <= 3
    && (cols[9] == "none" <==> IsBlank(cols[10]))
    && !h.looksLikePipeTable(cols[5]) && !h.looksLikePipeTable(cols[6])
    && !h.looksLikePipeTable(cols[7]) && !h.looksLikePipeTable(cols[8])
  }

  /** The failures `validate_tsv_row` reports, in the order it checks. */
  datatype RowError =
    | WrongColumnCount | InvalidDifficulty | EmptySkillCodes | EmptyLoIds | EmptyQuestion | EmptyChoice
    | InvalidStimulusType | NonIntegerIndex | InvalidIndex | PayloadWithNone | MissingPayload | TableInChoice

  /** The message each failure is reported with. */
  function RowErrorMessage(e: RowError): string {
    match e
    case WrongColumnCount => "Wrong column count"
    case InvalidDifficulty => "Invalid difficulty"
    case EmptySkillCodes => "Empty skill_codes"
    case EmptyLoIds => "Empty learning_objective_ids"
    case EmptyQuestion => "Empty question text"
    case EmptyChoice => "Empty choice"
    case InvalidStimulusType => "Invalid stimulus_type"
    case NonIntegerIndex => "Non-integer correct_index"
    case InvalidIndex => "Invalid correct_index"
    case PayloadWithNone => "stimulus_payload must be empty when stimulus_type=none"
    case MissingPayload => "Missing stimulus_payload"
    case TableInChoice => "Answer choices must not contain tables; use stim_type=table + stim_payload"
  }

  /** `validate_tsv_row`: the first failed check, or nothing. */
  function ValidateTsvRow(cols: seq<string>, h: Helpers): (r: Option<RowError>)
    ensures r.None? <==> WellFormedRow(cols, h)
    ensures r == Some(WrongColumnCount) <==> |cols| != ColumnCount
  {
    if |cols| != ColumnCount then Some(WrongColumnCount)
    else if cols[0] !in Difficulties then Some(InvalidDifficulty)
    else if IsBlank(cols[1]) then Some(EmptySkillCodes)
    else if IsBlank(cols[2]) then Some(EmptyLoIds)
    else if IsBlank(cols[4]) then Some(EmptyQuestion)
    else if IsBlank(cols[5]) || IsBlank(cols[6]) || IsBlank(cols[7]) || IsBlank(cols[8]) then Some(EmptyChoice)
    else if cols[9] !in StimulusTypes then Some(InvalidStimulusType)
    else if ParseInt(cols[3]).None? then Some(NonIntegerIndex)
    else if !(0 <= ParseInt(cols[3]).value <= 3) then Some(InvalidIndex)
    else if cols[9] == "none" && !IsBlank(cols[10]) then Some(PayloadWithNone)
    else if cols[9] != "none" && IsBlank(cols[10]) then Some(MissingPayload)
    else if h.looksLikePipeTable(cols[5]) || h.looksLikePipeTable(cols[6])
         || h.looksLikePipeTable(cols[7]) || h.looksLikePipeTable(cols[8])
    then Some(TableInChoice)
    else None
  }

  lemma StimulusTypeStripped(t: string)
    requires t in StimulusTypes
    ensures Strip(t) == t
  {
    if t == "none" { StripOfStripped("none"); }
    else if t == "svg" { StripOfStripped("svg"); }
    else { StripOfStripped("table"); }
  }

  /** The stimulus of an accepted row: the converted table, the SVG as
      given, or none. */
  function McqStimulus(stimType: string, payload: string, h: Helpers): Option<Stimulus> {
    if stimType == "table" then Some(TableStimulus(h.pipeTableToHtml(payload)))
    else if stimType == "svg" then Some(SvgStimulus(payload))
    else None
  }

  /** The checks `validate_rows_individually` makes after the row checks, on
      the stripped columns: the skill codes, the LOs, the SVG and the table;
      then the question the row describes. */
  function StrippedVerdict(s: seq<string>, c: Constraints, h: Helpers): Verdict
    requires |s| == ColumnCount && ParseInt(s[3]).Some?
  {
    var skills := NonEmptyCommaItems(s[1]);
    var los := NonEmptyCommaItems(s[2]);
    if !AllAllowed(skills, c.allowedSkillCodes) then Reject("skill_not_allowed", s[1])
    else if !AllAllowed(los, c.allowedLoIds) then Reject("lo_not_allowed", s[2])
    else if s[9] == "svg" && !h.isValidSvg(s[10]) then Reject("svg_invalid", "")
    else if s[9] == "table" && !Contains(h.pipeTableToHtml(s[10]), "<table") then Reject("table_invalid", "")
    else Accept(Mcq(None, s[0], skills, los, ParseInt(s[3]).value, s[4], s[5..9], McqStimulus(s[9], s[10], h)))
  }

  /** The question of an accepted row, in terms of the stripped columns. */
  lemma StrippedAccepted(s: seq<string>, c: Constraints, h: Helpers, q: Question)
    requires |s| == ColumnCount && ParseInt(s[3]).Some?
    requires StrippedVerdict(s, c, h) == Accept(q)
    ensures q == Mcq(None, s[0], NonEmptyCommaItems(s[1]), NonEmptyCommaItems(s[2]), ParseInt(s[3]).value,
                     s[4], s[5..9], McqStimulus(s[9], s[10], h))
    ensures AllAllowed(NonEmptyCommaItems(s[1]), c.allowedSkillCodes) && AllAllowed(NonEmptyCommaItems(s[2]), c.allowedLoIds)
    ensures s[9] == "svg" ==> h.isValidSvg(s[10])
    ensures s[9] == "table" ==> Contains(h.pipeTableToHtml(s[10]), "<table")
  {
  }

  /** The reasons of the later checks: a failed skill code, then a failed
      LO, each with its stripped column as detail; never `row_invalid`. */
  lemma StrippedReasons(s: seq<string>, c: Constraints, h: Helpers)
    requires |s| == ColumnCount && ParseInt(s[3]).Some?
    ensures StrippedVerdict(s, c, h) == Reject("skill_not_allowed", s[1]) <==>
      !AllAllowed(NonEmptyCommaItems(s[1]), c.allowedSkillCodes)
    ensures StrippedVerdict(s, c, h) == Reject("lo_not_allowed", s[2]) <==>
      AllAllowed(NonEmptyCommaItems(s[1]), c.allowedSkillCodes) && !AllAllowed(NonEmptyCommaItems(s[2]), c.allowedLoIds)
    ensures StrippedVerdict(s, c, h).Reject? ==> StrippedVerdict(s, c, h).reason != "row_invalid"
  {
  }

  /** One iteration of `validate_rows_individually`: a rejection with its
      reason and detail, or the question the row describes. */
  function McqVerdict(cols: seq<string>, c: Constraints, h: Helpers): Verdict {
    match ValidateTsvRow(cols, h)
    case Some(error) => Reject("row_invalid", RowErrorMessage(error))
    case None =>
      ParseIntOfStripped(cols[3]);
      StrippedVerdict(StripAll(cols), c, h)
  }

  /** The row validator of the compiler over the allow lists `c`. */
  function Classify(c: Constraints, h: Helpers): seq<string> -> Verdict {
    cols => McqVerdict(cols, c, h)
  }

  /** The stripped columns of an accepted row: the well-formed row's
      difficulty and stimulus type are already stripped, and its index
      parses the same. */
  lemma AcceptedColumns(cols: seq<string>, c: Constraints, h: Helpers)
    requires McqVerdict(cols, c, h).Accept?
    ensures WellFormedRow(cols, h)
    ensures var s := StripAll(cols);
      && s[0] == cols[0] && s[9] == cols[9] && ParseInt(s[3]) == ParseInt(cols[3])
      && McqVerdict(cols, c, h) == StrippedVerdict(s, c, h)
  {
    ParseIntOfStripped(cols[3]);
    DifficultyStripped(cols[0]);
    StimulusTypeStripped(cols[9]);
  }

  /** The question of an accepted row is a multiple-choice question with no
      id yet, whose codes and LOs are all allowed and whose index is the
      row's, in 0..3. */
  lemma McqAccepted(cols: seq<string>, c: Constraints, h: Helpers, q: Question)
    requires McqVerdict(cols, c, h) == Accept(q)
    ensures WellFormedRow(cols, h)
    ensures q.Mcq? && q.id.None? && WithinAllowLists(q, c)
    ensures Some(q.correctChoiceIndex) == ParseInt(cols[3]) && 0 <= q.correctChoiceIndex <= 3
  {
    AcceptedColumns(cols, c, h);
    StrippedAccepted(StripAll(cols), c, h, q);
  }

  /** The question of an accepted row holds the row's stripped difficulty,
      question text and four choices, none of them blank, and its codes
      and LOs split on commas with empty items dropped (not trimmed). */
  lemma McqAcceptedContent(cols: seq<string>, c: Constraints, h: Helpers, q: Question)
    requires McqVerdict(cols, c, h) == Accept(q)
    ensures |cols| == ColumnCount && q.Mcq?
    ensures q.difficulty == cols[0]
    ensures q.skillCodes == NonEmptyCommaItems(Strip(cols[1])) && q.loIds == NonEmptyCommaItems(Strip(cols[2]))
    ensures q.question == Strip(cols[4]) && q.question != ""
    ensures |q.choices| == 4 && forall k | 0 <= k < 4 :: q.choices[k] == Strip(cols[5 + k]) && q.choices[k] != ""
  {
    AcceptedColumns(cols, c, h);
    var s := StripAll(cols);
    StrippedAccepted(s, c, h, q);
    StrippedChoices(cols, q.choices);
  }

  /** The four stripped choice columns of a row whose choices are not
      blank. */
  lemma StrippedChoices(cols: seq<string>, choices: seq<string>)
    requires |cols| == ColumnCount && choices == StripAll(cols)[5..9]
    requires !IsBlank(cols[5]) && !IsBlank(cols[6]) && !IsBlank(cols[7]) && !IsBlank(cols[8])
    ensures |choices| == 4 && forall k | 0 <= k < 4 :: choices[k] == Strip(cols[5 + k]) && choices[k] != ""
  {
    forall k | 0 <= k < 4 ensures choices[k] == Strip(cols[5 + k]) && choices[k] != "" {
      assert k == 0 || k == 1 || k == 2 || k == 3;
    }
  }

  /** The stimulus of an accepted row is the one its type asks for: none,
      the SVG as given (which the SVG check accepts), or the converted
      table (which holds a table). */
  lemma McqAcceptedStimulus(cols: seq<string>, c: Constraints, h: Helpers, q: Question)
    requires McqVerdict(cols, c, h) == Accept(q)
    ensures |cols| == ColumnCount && q.Mcq?
    ensures q.stimulus.None? <==> cols[9] == "none"
    ensures cols[9] == "svg" ==> q.stimulus == Some(SvgStimulus(Strip(cols[10]))) && h.isValidSvg(Strip(cols[10]))
    ensures cols[9] == "table" ==>
      q.stimulus == Some(TableStimulus(h.pipeTableToHtml(Strip(cols[10])))) && Contains(q.stimulus.value.html, "<table")
  {
    AcceptedColumns(cols, c, h);
    StrippedAccepted(StripAll(cols), c, h, q);
    McqStimulusKind(cols[9], Strip(cols[10]), h);
  }

  lemma McqStimulusKind(stimType: string, payload: string, h: Helpers)
    requires stimType in StimulusTypes
    ensures McqStimulus(stimType, payload, h).None? <==> stimType == "none"
  {
  }

  /** A row is accepted exactly when it passes the row checks, all its
      codes and LOs are allowed and its stimulus converts. */
  lemma McqAcceptedIff(cols: seq<string>, c: Constraints, h: Helpers)
    ensures McqVerdict(cols, c, h).Accept? <==>
      && WellFormedRow(cols, h)
      && AllAllowed(NonEmptyCommaItems(Strip(cols[1])), c.allowedSkillCodes)
      && AllAllowed(NonEmptyCommaItems(Strip(cols[2])), c.allowedLoIds)
      && (cols[9] == "svg" ==> h.isValidSvg(Strip(cols[10])))
      && (cols[9] == "table" ==> Contains(h.pipeTableToHtml(Strip(cols[10])), "<table"))
  {
    if WellFormedRow(cols, h) {
      ParseIntOfStripped(cols[3]);
      StimulusTypeStripped(cols[9]);
      assert McqVerdict(cols, c, h) == StrippedVerdict(StripAll(cols), c, h);
    }
  }

  /** A row fails with `row_invalid` exactly when the row checks fail, and
      then the detail is the message of the check that failed. */
  lemma McqRowInvalid(cols: seq<string>, c: Constraints, h: Helpers)
    ensures McqVerdict(cols, c, h).Reject? && McqVerdict(cols, c, h).reason == "row_invalid" <==>
      !WellFormedRow(cols, h)
    ensures forall e :: ValidateTsvRow(cols, h) == Some(e) ==>
      McqVerdict(cols, c, h) == Reject("row_invalid", RowErrorMessage(e))
  {
    if WellFormedRow(cols, h) {
      ParseIntOfStripped(cols[3]);
      StrippedReasons(StripAll(cols), c, h);
    }
  }

  /** A well-formed row fails on its skill codes exactly when one is not
      allowed, with the stripped skills column as detail; it fails on its
      LOs exactly when its codes are allowed and an LO is not, with the
      stripped LO column as detail. */
  lemma McqAllowListReasons(cols: seq<string>, c: Constraints, h: Helpers)
    requires WellFormedRow(cols, h)
    ensures McqVerdict(cols, c, h) == Reject("skill_not_allowed", Strip(cols[1])) <==>
      !AllAllowed(NonEmptyCommaItems(Strip(cols[1])), c.allowedSkillCodes)
    ensures McqVerdict(cols, c, h) == Reject("lo_not_allowed", Strip(cols[2])) <==>
      && AllAllowed(NonEmptyCommaItems(Strip(cols[1])), c.allowedSkillCodes)
      && !AllAllowed(NonEmptyCommaItems(Strip(cols[2])), c.allowedLoIds)
  {
    ParseIntOfStripped(cols[3]);
    StrippedReasons(StripAll(cols), c, h);
  }

  /** Every question of a reply is a multiple-choice question within the
      allow lists. */
  lemma McqYieldsOnly(c: Constraints, h: Helpers)
    ensures YieldsOnly(SetupFor(QuestionsPerSet, Classify(c, h), c), (q: Question) => q.Mcq? && WithinAllowLists(q, c))
  {
    var u := SetupFor(QuestionsPerSet, Classify(c, h), c);
    forall text, k | 0 <= k < |u.harvest(text).valid|
      ensures u.harvest(text).valid[k].Mcq? && WithinAllowLists(u.harvest(text).valid[k], c)
    {
      var rows := TsvRows(text);
      assert u.harvest(text) == Harvested(text, Classify(c, h));
      var q := Accepted(rows, Classify(c, h))[k];
      var i :| 0 <= i < |rows| && Classify(c, h)(rows[i]) == Accept(q);
      McqAccepted(rows[i], c, h, q);
    }
  }

  /** `validate_rows_individually`: the questions of the accepted rows and
      the reports of the rejected ones, each row one or the other. */
  method ValidateRowsIndividually(rows: seq<seq<string>>, c: Constraints, h: Helpers)
    returns (valid: seq<Question>, invalid: seq<Report>)
    ensures valid == Accepted(rows, Classify(c, h)) && invalid == Rejected(rows, Classify(c, h))
    ensures |valid| + |invalid| == |rows|
    ensures forall k | 0 <= k < |valid| :: valid[k].Mcq? && WithinAllowLists(valid[k], c)
  {
    valid, invalid := ValidateRows(rows, Classify(c, h));
    forall k | 0 <= k < |valid| ensures valid[k].Mcq? && WithinAllowLists(valid[k], c) {
      var i :| 0 <= i < |rows| && Classify(c, h)(rows[i]) == Accept(valid[k]);
      McqAccepted(rows[i], c, h, valid[k]);
    }
  }

  /** `process_single_set`: asks for the set with the ten least-covered LOs
      first, repairs while questions are missing, and saves the first 25
      questions, numbered, counting their LOs in the tracker, or saves
      nothing. */
  method ProcessSingleSet(replies: seq<Reply>, courseId: string, unitIndex: int, setIndex: int,
                          c: Constraints, h: Helpers, tracker: CoverageTracker)
    returns (saved: Option<seq<Question>>, session: Session)
    requires |replies| == MaxRetriesPerSet + 1
    modifies tracker
    ensures session == RunSession(replies, Utility.GetPriorityLos(old(tracker.counts), c.allowedLoIds, Some(10)),
                                  SetupFor(QuestionsPerSet, Classify(c, h), c))
    ensures saved.Some? <==> |session.questions| >= QuestionsPerSet
    ensures saved.Some? ==>
      && saved.value == WithIds(session.questions[..QuestionsPerSet], courseId, "MCQ", unitIndex, setIndex)
      && tracker.counts == BumpAll(old(tracker.counts), saved.value)
    ensures saved.None? ==> tracker.counts == old(tracker.counts)
  {
    var priorityLos := Utility.GetPriorityLos(tracker.counts, c.allowedLoIds, Some(10));
    var u := SetupFor(QuestionsPerSet, Classify(c, h), c);
    session := GenerateSet(replies, priorityLos, Classify(c, h), u, c);
    if |session.questions| >= QuestionsPerSet {
      var numbered := NumberSet(session.questions[..QuestionsPerSet], courseId, "MCQ", unitIndex, setIndex);
      saved := Some(numbered);
      tracker.RecordSet(numbered);
    } else {
      saved := None;
    }
  }

  /** A saved set holds exactly 25 multiple-choice questions within the
      allow lists, with pairwise different ids. */
  lemma SavedSetShape(replies: seq<Reply>, priorityLos: seq<string>, courseId: string, unitIndex: int, setIndex: int,
                      c: Constraints, h: Helpers)
    requires |replies| == MaxRetriesPerSet + 1
    ensures var s := RunSession(replies, priorityLos, SetupFor(QuestionsPerSet, Classify(c, h), c));
      |s.questions| >= QuestionsPerSet ==>
        var saved := WithIds(s.questions[..QuestionsPerSet], courseId, "MCQ", unitIndex, setIndex);
        && |saved| == QuestionsPerSet
        && (forall k | 0 <= k < |saved| :: saved[k].Mcq? && WithinAllowLists(saved[k], c))
        && (forall i, j | 0 <= i < j < |saved| :: saved[i].id != saved[j].id)
  {
    var u := SetupFor(QuestionsPerSet, Classify(c, h), c);
    var p := (q: Question) => q.Mcq? && WithinAllowLists(q, c);
    McqYieldsOnly(c, h);
    SessionYields(replies, priorityLos, u, p);
    var s := RunSession(replies, priorityLos, u);
    if |s.questions| >= QuestionsPerSet {
      WithIdsDistinct(s.questions[..QuestionsPerSet], courseId, "MCQ", unitIndex, setIndex);
      var saved := WithIds(s.questions[..QuestionsPerSet], courseId, "MCQ", unitIndex, setIndex);
      forall k | 0 <= k < |saved| ensures saved[k].Mcq? && WithinAllowLists(saved[k], c) {
        assert p(s.questions[k]);
      }
    }
  }
}

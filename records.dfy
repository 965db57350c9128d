/** The records the pipeline passes around: the course content read from the
    course JSON, the generated questions, and the rejection reports. */
module Records {
  import opened PyStrings

  // ---- course content ----

  datatype SubSkill = SubSkill(subskillName: string, subskillDescription: string)

  datatype SkillCategory = SkillCategory(skillName: string, skillDescription: string, subskills: seq<SubSkill>)

  /** A course-level big idea (`VAR`, `UNC`, ...). */
  datatype BigIdea = BigIdea(id: string, name: string, description: string)

  /** An exam section; `section` is "I" or "II", and "" when the key is missing. */
  datatype ExamSection = ExamSection(section: string, questionType: string, timing: string, descriptions: seq<string>)

  datatype TaskVerb = TaskVerb(verb: string, description: string)

  /** A topic-level big idea reference (`VAR-1`, ...). */
  datatype TopicBigIdea = TopicBigIdea(id: string, description: string)

  datatype LearningObjective = LearningObjective(id: string, description: string)

  datatype Topic = Topic(
    id: string,
    name: string,
    suggestedSubskillCodes: seq<string>,
    bigIdeas: seq<TopicBigIdea>,
    learningObjectives: seq<LearningObjective>)

  datatype Unit = Unit(id: string, name: string, topics: seq<Topic>)

  datatype CourseSpec = CourseSpec(
    name: string,
    skills: seq<SkillCategory>,
    bigIdeas: seq<BigIdea>,
    examSections: seq<ExamSection>,
    taskVerbs: seq<TaskVerb>,
    units: seq<Unit>)

  // ---- generated questions ----

  datatype Stimulus =
    | TableStimulus(html: string)
    | SvgStimulus(svg: string)
    | ImageStimulus(filePath: string, base64: string, altText: string)
    /** `{"type": "none", "error": ...}`: an image that could not be produced. */
    | FailedImage(error: string)

  /** One labelled part of a free-response question. `letters` holds the code
      points of its label: one for a letter, two for U+0130 lowered, and for
      an unlabelled part the code point `chr` is given, which may lie past
      `z`. */
  datatype Part = Part(letters: seq<int>, prompt: string)

  datatype Question =
    | Mcq(
        id: Option<string>,
        difficulty: string,
        skillCodes: seq<string>,
        loIds: seq<string>,
        correctChoiceIndex: int,
        question: string,
        choices: seq<string>,
        stimulus: Option<Stimulus>)
    | Frq(
        id: Option<string>,
        difficulty: string,
        skillCodes: seq<string>,
        loIds: seq<string>,
        context: string,
        parts: seq<Part>,
        scoringGuidelines: seq<string>,
        stimulusType: string,
        stimulusContent: string,
        stimulus: Option<Stimulus>)

  /** `{row_index, reason, detail}` */
  datatype Report = Report(rowIndex: int, reason: string, detail: string)

  /** The allow-lists of one unit, each as `sorted` printed it. */
  datatype Constraints = Constraints(allowedSkillCodes: seq<string>, allowedLoIds: seq<string>)

  /** Every skill code and LO id of `q` is on the allow-lists. */
  predicate WithinAllowLists(q: Question, c: Constraints) {
    && (forall k | 0 <= k < |q.skillCodes| :: q.skillCodes[k] in c.allowedSkillCodes)
    && (forall k | 0 <= k < |q.loIds| :: q.loIds[k] in c.allowedLoIds)
  }

  /** `q` with its `stimulus` entry set to `s`. */
  function WithStimulus(q: Question, s: Option<Stimulus>): Question {
    q.(stimulus := s)
  }

  const Difficulties: set<string> := {"easy", "medium", "hard"}

  /** `[s for s in text.split(",") if s]` */
  function NonEmptyCommaItems(text: string): (items: seq<string>)
    ensures forall k | 0 <= k < |items| :: items[k] != "" && ',' !in items[k]
  {
    DropEmpty(Split(text, ','))
  }

  function DropEmpty(xs: seq<string>): (r: seq<string>)
    requires forall k | 0 <= k < |xs| :: ',' !in xs[k]
    ensures forall k | 0 <= k < |r| :: r[k] != "" && ',' !in r[k]
  {
    if xs == [] then []
    else (if xs[0] == "" then [] else [xs[0]]) + DropEmpty(xs[1..])
  }

  lemma DifficultyStripped(d: string)
    requires d in Difficulties
    ensures Strip(d) == d
  {
    if d == "easy" { StripOfStripped("easy"); }
    else if d == "medium" { StripOfStripped("medium"); }
    else { StripOfStripped("hard"); }
  }

  /** Every column with surrounding whitespace removed. */
  function StripAll(cols: seq<string>): (r: seq<string>)
    ensures |r| == |cols| && forall i | 0 <= i < |cols| :: r[i] == Strip(cols[i])
  {
    seq(|cols|, i requires 0 <= i < |cols| => Strip(cols[i]))
  }

  /** Every item is on the allow list. */
  predicate AllAllowed(items: seq<string>, allowed: seq<string>) {
    forall k | 0 <= k < |items| :: items[k] in allowed
  }
}

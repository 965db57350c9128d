/** The free-response compiler (`frq_compiler.py`): the parsers of the
    `|`-separated parts and scoring guidelines, the checks of one 8-column
    TSV row, the classification of a row into a question or a rejection
    report, the image pass over a finished set, and the generation of one
    set of 5 questions. */
module FrqCompiler {
  import opened PyStrings
  import opened Records
  import opened Rows
  import opened RepairLoop
  import Utility
  import ImageGenerator

  const FrqsPerSet := 5
  const ColumnCount := 8
  const StimulusTypes: set<string> := {"none", "image"}
  const ImagePromptMarker := "IMAGE_PROMPT:"
  const MinImagePromptLength := 20

  // ---- parts and scoring guidelines ----

  /** The stripped pieces that are not blank, in order. */
  function TrimmedPieces(pieces: seq<string>): (r: seq<string>)
    ensures |r| <= |pieces|
    ensures forall k | 0 <= k < |r| :: r[k] != [] && Strip(r[k]) == r[k]
  {
    if pieces == [] then []
    else
      var before := TrimmedPieces(pieces[..|pieces| - 1]);
      var seg := Strip(pieces[|pieces| - 1]);
      StripIdempotent(pieces[|pieces| - 1]);
      if seg == [] then before else before + [seg]
  }

  /** `[s.strip() for s in text.split(",") if s.strip()]` */
  function TrimmedCommaItems(text: string): seq<string> {
    TrimmedPieces(Split(text, ','))
  }

  /** `parse_scoring_guidelines`: the stripped, non-blank `|` segments. */
  function ScoringGuidelines(text: string): seq<string> {
    if IsBlank(text) then [] else TrimmedPieces(Split(text, '|'))
  }

  /** A segment the part pattern `^([a-z])[.)]\s*(.+)` matches under
      `re.IGNORECASE`: a letter, a period or closing parenthesis, and at least
      one more character (the segment is stripped, so the rest is never all
      whitespace). */
  predicate LabelledSegment(seg: string) {
    |seg| >= 3 && IsIgnoreCaseLetter(seg[0]) && (seg[1] == '.' || seg[1] == ')')
  }

  /** The part a stripped segment becomes when `count` parts precede it: its
      own lower-cased label and the stripped rest, or the next letter in
      sequence and the whole segment. */
  function SegmentPart(seg: string, count: int): Part {
    if LabelledSegment(seg) then Part(LowerLetter(seg[0]), Strip(seg[2..]))
    else Part(['a' as int + count], seg)
  }

  function PartsOf(pieces: seq<string>): (r: seq<Part>)
    ensures |r| <= |pieces|
  {
    if pieces == [] then []
    else
      var before := PartsOf(pieces[..|pieces| - 1]);
      var seg := Strip(pieces[|pieces| - 1]);
      if seg == [] then before else before + [SegmentPart(seg, |before|)]
  }

  /** `parse_parts` */
  function Parts(text: string): seq<Part> {
    if IsBlank(text) then [] else PartsOf(Split(text, '|'))
  }

  lemma {:induction false} PartsOfPieces(pieces: seq<string>)
    ensures |PartsOf(pieces)| == |TrimmedPieces(pieces)|
    ensures forall i | 0 <= i < |PartsOf(pieces)| :: PartsOf(pieces)[i] == SegmentPart(TrimmedPieces(pieces)[i], i)
  {
    if pieces != [] {
      var init := pieces[..|pieces| - 1];
      PartsOfPieces(init);
      var seg := Strip(pieces[|pieces| - 1]);
      var before := PartsOf(init);
      var r := PartsOf(pieces);
      var t := TrimmedPieces(pieces);
      assert r == if seg == [] then before else before + [SegmentPart(seg, |before|)];
      assert t == if seg == [] then TrimmedPieces(init) else TrimmedPieces(init) + [seg];
      forall i | 0 <= i < |r| ensures r[i] == SegmentPart(t[i], i) {
        if i < |before| {
          assert r[i] == before[i] && t[i] == TrimmedPieces(init)[i];
        } else {
          assert r[i] == SegmentPart(seg, i) && t[i] == seg;
        }
      }
    }
  }

  /** There is one part per scoring-guideline-style segment: part `i` is
      made from the `i`-th stripped non-blank `|` segment. */
  lemma PartsFollowSegments(text: string)
    ensures |Parts(text)| == |ScoringGuidelines(text)|
    ensures forall i | 0 <= i < |Parts(text)| :: Parts(text)[i] == SegmentPart(ScoringGuidelines(text)[i], i)
  {
    if !IsBlank(text) {
      PartsOfPieces(Split(text, '|'));
    }
  }

  /** What `.lower()` makes of a label letter: a lower-case ASCII letter,
      U+0131, U+017F, or `i` followed by U+0307. */
  predicate IsLoweredLabel(letters: seq<int>) {
    || (|letters| == 1 && ('a' as int <= letters[0] <= 'z' as int || letters[0] == 0x0131 || letters[0] == 0x017F))
    || letters == ['i' as int, 0x0307]
  }

  /** Every part has a non-empty, stripped prompt; a labelled segment's part
      carries its letter lower-cased (an ASCII capital moves down by 32, a
      small letter stays, the Kelvin sign becomes `k`, U+0130 becomes `i`
      followed by U+0307); an unlabelled one the
      next letter in sequence and the whole segment. */
  lemma SegmentPartShape(seg: string, count: int)
    requires seg != [] && Strip(seg) == seg
    ensures var p := SegmentPart(seg, count);
      && p.prompt != [] && Strip(p.prompt) == p.prompt
      && (LabelledSegment(seg) ==> IsLoweredLabel(p.letters))
      && (LabelledSegment(seg) && 'A' <= seg[0] <= 'Z' ==> p.letters == [seg[0] as int + 32])
      && (LabelledSegment(seg) && 'a' <= seg[0] <= 'z' ==> p.letters == [seg[0] as int])
      && (LabelledSegment(seg) && seg[0] == '\U{212A}' ==> p.letters == ['k' as int])
      && (LabelledSegment(seg) && seg[0] == '\U{0130}' ==> p.letters == ['i' as int, 0x0307])
      && (!LabelledSegment(seg) ==> p.letters == ['a' as int + count] && p.prompt == seg)
  {
    if LabelledSegment(seg) {
      assert !IsSpace(seg[|seg| - 1]);
      assert seg[2..][|seg| - 3] == seg[|seg| - 1];
      StripIdempotent(seg[2..]);
    }
  }

  /** The Kelvin sign is a label letter: `"\U{212A}. Explain"` becomes part
      `k` with the prompt `Explain`, not part `a` with the whole segment. */
  lemma KelvinSignLabel()
    ensures SegmentPart("\U{212A}. Explain", 0) == Part(['k' as int], "Explain")
  {
    var seg := "\U{212A}. Explain";
    var rest := " Explain";
    assert seg[2..] == rest;
    assert rest[1..] == "Explain";
    assert LeadingSpaces("Explain") == 0;
    assert LeadingSpaces(rest) == 1;
    assert LStrip(rest) == "Explain";
    assert TrailingSpaces("Explain") == 0;
    assert Strip(rest) == "Explain";
  }

  lemma PartsShape(text: string)
    ensures forall i | 0 <= i < |Parts(text)| ::
      Parts(text)[i].prompt != [] && Strip(Parts(text)[i].prompt) == Parts(text)[i].prompt
  {
    PartsFollowSegments(text);
    forall i | 0 <= i < |Parts(text)|
      ensures Parts(text)[i].prompt != [] && Strip(Parts(text)[i].prompt) == Parts(text)[i].prompt
    {
      SegmentPartShape(ScoringGuidelines(text)[i], i);
    }
  }

  lemma {:induction false} TrimmedPiecesOfTrimmed(pieces: seq<string>)
    requires forall k | 0 <= k < |pieces| :: pieces[k] != [] && Strip(pieces[k]) == pieces[k]
    ensures TrimmedPieces(pieces) == pieces
  {
    if pieces != [] {
      TrimmedPiecesOfTrimmed(pieces[..|pieces| - 1]);
    }
  }

  /** Joining stripped, non-empty guidelines free of `|` with `|` and parsing
      the result gives them back. */
  lemma GuidelinesRoundTrip(guidelines: seq<string>)
    requires forall k | 0 <= k < |guidelines| ::
      guidelines[k] != [] && Strip(guidelines[k]) == guidelines[k] && '|' !in guidelines[k]
    ensures ScoringGuidelines(Join("|", guidelines)) == guidelines
  {
    if guidelines != [] {
      var text := Join("|", guidelines);
      JoinStartsWith("|", guidelines);
      assert text[0] == guidelines[0][0];
      SplitJoin(guidelines, '|');
      assert ['|'] == "|";
      TrimmedPiecesOfTrimmed(guidelines);
    }
  }

  lemma {:induction false} TrimmedPiecesNonEmpty(pieces: seq<string>, k: int)
    requires 0 <= k < |pieces| && !IsBlank(pieces[k])
    ensures TrimmedPieces(pieces) != []
  {
    if k < |pieces| - 1 {
      TrimmedPiecesNonEmpty(pieces[..|pieces| - 1], k);
    }
  }

  /** A parts text holding any character other than whitespace and `|` parses
      to at least one part. */
  lemma PartsNonEmpty(text: string, i: int)
    requires 0 <= i < |text| && !IsSpace(text[i]) && text[i] != '|'
    ensures Parts(text) != []
  {
    SplitCovers(text, '|', i);
    var pieces := Split(text, '|');
    var k :| 0 <= k < |pieces| && text[i] in pieces[k];
    TrimmedPiecesNonEmpty(pieces, k);
    PartsFollowSegments(text);
  }

  /** `parse_scoring_guidelines`, segment by segment. */
  method ParseScoringGuidelines(text: string) returns (guidelines: seq<string>)
    ensures guidelines == ScoringGuidelines(text)
  {
    guidelines := [];
    if IsBlank(text) {
      return;
    }
    var segments := Split(text, '|');
    for i := 0 to |segments|
      invariant guidelines == TrimmedPieces(segments[..i])
    {
      assert segments[..i + 1][..i] == segments[..i];
      var segment := Strip(segments[i]);
      if segment != [] {
        guidelines := guidelines + [segment];
      }
    }
    assert segments[..|segments|] == segments;
  }

  /** One step of `PartsOf` over a growing prefix. */
  lemma PartsOfStep(segments: seq<string>, i: nat)
    requires i < |segments|
    ensures var before := PartsOf(segments[..i]);
      PartsOf(segments[..i + 1]) ==
        if Strip(segments[i]) == [] then before else before + [SegmentPart(Strip(segments[i]), |before|)]
  {
    assert segments[..i + 1][..i] == segments[..i];
  }

  /** `parse_parts`, segment by segment. */
  method ParseParts(text: string) returns (parts: seq<Part>)
    ensures parts == Parts(text)
  {
    parts := [];
    if IsBlank(text) {
      return;
    }
    var segments := Split(text, '|');
    for i := 0 to |segments|
      invariant parts == PartsOf(segments[..i])
    {
      PartsOfStep(segments, i);
      var segment := Strip(segments[i]);
      if segment != [] {
        if LabelledSegment(segment) {
          parts := parts + [Part(LowerLetter(segment[0]), Strip(segment[2..]))];
        } else {
          parts := parts + [Part(['a' as int + |parts|], segment)];
        }
      }
    }
    assert segments[..|segments|] == segments;
  }

  // ---- row checks ----

  /** Some letter followed by `.` or `)` (the search `[a-z][.)]` under
      `re.IGNORECASE`). */
  predicate HasLabelMark(parts: string) {
    exists i | 0 <= i < |parts| - 1 :: IsIgnoreCaseLetter(parts[i]) && (parts[i + 1] == '.' || parts[i + 1] == ')')
  }

  /** The image prompt of a payload: every marker removed, then stripped. */
  function ImagePrompt(payload: string): string {
    Strip(ReplaceAll(payload, ImagePromptMarker, ""))
  }

  /** A row the checks accept: eight columns (difficulty, skills, LOs,
      context, parts, guidelines, stimulus type, payload); a known
      difficulty; non-blank skills, LOs, context and parts; a labelled part;
      a known stimulus type; a payload exactly when the type is not `none`;
      and for an image, a payload opening with the marker whose prompt has
      at least 20 characters. */
  predicate FrqWellFormedRow(cols: seq<string>) {
    && |cols| == ColumnCount
    && cols[0] in Difficulties
    && !IsBlank(cols[1]) && !IsBlank(cols[2]) && !IsBlank(cols[3]) && !IsBlank(cols[4])
    && HasLabelMark(cols[4])
    && cols[6] in StimulusTypes
    && (cols[6] == "none" <==> IsBlank(cols[7]))
    && (cols[6] == "image" ==>
          StartsWith(cols[7], ImagePromptMarker) && |ImagePrompt(cols[7])| >= MinImagePromptLength)
  }

  /** The failures the row check reports, in the order it checks. */
  datatype FrqRowError =
    | WrongColumnCount(got: int) | InvalidDifficulty | EmptySkillCodes | EmptyLoIds | EmptyContext | EmptyParts
    | UnlabelledParts | InvalidStimulusType | PayloadWithNone | MissingPayload | MissingImageMarker | ShortImagePrompt

  /** The message each failure is reported with. */
  function FrqRowErrorMessage(e: FrqRowError): string {
    match e
    case WrongColumnCount(got) => "Wrong column count (expected 8, got " + IntToString(got) + ")"
    case InvalidDifficulty => "Invalid difficulty"
    case EmptySkillCodes => "Empty skill_codes"
    case EmptyLoIds => "Empty learning_objective_ids"
    case EmptyContext => "Empty context"
    case EmptyParts => "Empty parts"
    case UnlabelledParts => "Parts must contain labeled sections (a., b., etc.)"
    case InvalidStimulusType => "Invalid stimulus_type"
    case PayloadWithNone => "stimulus_payload must be empty when stimulus_type=none"
    case MissingPayload => "Missing stimulus_payload"
    case MissingImageMarker => "Image stimulus must start with 'IMAGE_PROMPT:'"
    case ShortImagePrompt => "Image prompt must be detailed (min 20 chars)"
  }

  /** `validate_tsv_row`: the first failed check, or nothing; a row of the
      wrong width fails on that alone, naming its width. */
  function ValidateFrqRow(cols: seq<string>): (r: Option<FrqRowError>)
    ensures r.None? <==> FrqWellFormedRow(cols)
    ensures |cols| != ColumnCount <==> r == Some(WrongColumnCount(|cols|))
  {
    if |cols| != ColumnCount then Some(WrongColumnCount(|cols|))
    else if cols[0] !in Difficulties then Some(InvalidDifficulty)
    else if IsBlank(cols[1]) then Some(EmptySkillCodes)
    else if IsBlank(cols[2]) then Some(EmptyLoIds)
    else if IsBlank(cols[3]) then Some(EmptyContext)
    else if IsBlank(cols[4]) then Some(EmptyParts)
    else if !HasLabelMark(cols[4]) then Some(UnlabelledParts)
    else if cols[6] !in StimulusTypes then Some(InvalidStimulusType)
    else if cols[6] == "none" && !IsBlank(cols[7]) then Some(PayloadWithNone)
    else if cols[6] != "none" && IsBlank(cols[7]) then Some(MissingPayload)
    else if cols[6] == "image" && !StartsWith(cols[7], ImagePromptMarker) then Some(MissingImageMarker)
    else if cols[6] == "image" && |ImagePrompt(cols[7])| < MinImagePromptLength then Some(ShortImagePrompt)
    else None
  }

  /** The message of a wrong-width row gives the width back. */
  lemma WrongColumnCountMessage(n: int)
    ensures var m := FrqRowErrorMessage(WrongColumnCount(n));
      var prefix := "Wrong column count (expected 8, got ";
      StartsWith(m, prefix) && ParseInt(m[|prefix|..|m| - 1]) == Some(n)
  {
    var prefix := "Wrong column count (expected 8, got ";
    var m := FrqRowErrorMessage(WrongColumnCount(n));
    assert m == prefix + IntToString(n) + ")";
    assert m[..|prefix|] == prefix;
    assert m[|prefix|..|m| - 1] == IntToString(n);
    ParseIntOfIntToString(n);
  }

  lemma StimulusTypeStripped(t: string)
    requires t in StimulusTypes
    ensures Strip(t) == t
  {
    if t == "none" { StripOfStripped("none"); }
    else { StripOfStripped("image"); }
  }

  // ---- classifying a row ----

  /** The checks `validate_rows_individually` makes after the row checks, on
      the stripped columns: the skill codes, the LOs, the image payload again
      and the parts; then the question the row describes. */
  function StrippedFrqVerdict(s: seq<string>, c: Constraints): Verdict
    requires |s| == ColumnCount
  {
    var skills := TrimmedCommaItems(s[1]);
    var los := TrimmedCommaItems(s[2]);
    if !AllAllowed(skills, c.allowedSkillCodes) then Reject("skill_not_allowed", s[1])
    else if !AllAllowed(los, c.allowedLoIds) then Reject("lo_not_allowed", s[2])
    else if s[6] == "image" && !StartsWith(s[7], ImagePromptMarker) then
      Reject("image_prompt_missing", FrqRowErrorMessage(MissingImageMarker))
    else if s[6] == "image" && |ImagePrompt(s[7])| < MinImagePromptLength then
      Reject("image_prompt_too_short", FrqRowErrorMessage(ShortImagePrompt))
    else if Parts(s[4]) == [] then Reject("parts_parse_failed", "Could not parse parts string")
    else Accept(Frq(None, s[0], skills, los, s[3], Parts(s[4]), ScoringGuidelines(s[5]), s[6], s[7], None))
  }

  /** The question of an accepted row, in terms of the stripped columns. */
  lemma StrippedFrqAccepted(s: seq<string>, c: Constraints, q: Question)
    requires |s| == ColumnCount && StrippedFrqVerdict(s, c) == Accept(q)
    ensures q == Frq(None, s[0], TrimmedCommaItems(s[1]), TrimmedCommaItems(s[2]), s[3], Parts(s[4]),
                     ScoringGuidelines(s[5]), s[6], s[7], None)
    ensures AllAllowed(q.skillCodes, c.allowedSkillCodes) && AllAllowed(q.loIds, c.allowedLoIds) && q.parts != []
  {
  }

  function FrqVerdict(cols: seq<string>, c: Constraints): Verdict {
    match ValidateFrqRow(cols)
    case Some(e) => Reject("row_invalid", FrqRowErrorMessage(e))
    case None => StrippedFrqVerdict(StripAll(cols), c)
  }

  /** The row validator of the free-response compiler under the allow lists `c`. */
  function FrqClassify(c: Constraints): seq<string> -> Verdict {
    cols => FrqVerdict(cols, c)
  }

  /** The checks repeated after the row checks always pass on a well-formed
      row: stripping keeps the image marker in front and the image prompt
      unchanged, and a labelled part makes the parts non-empty. */
  lemma RecheckedColumns(cols: seq<string>)
    requires FrqWellFormedRow(cols)
    ensures cols[6] == "image" ==>
      StartsWith(Strip(cols[7]), ImagePromptMarker) && |ImagePrompt(Strip(cols[7]))| >= MinImagePromptLength
    ensures Parts(Strip(cols[4])) != []
  {
    if cols[6] == "image" {
      StripKeepsMarker(cols[7], ImagePromptMarker);
    }
    var i :| 0 <= i < |cols[4]| - 1 && IsIgnoreCaseLetter(cols[4][i]) && (cols[4][i + 1] == '.' || cols[4][i + 1] == ')');
    StripKeepsNonSpace(cols[4], i);
    var j :| 0 <= j < |Strip(cols[4])| && Strip(cols[4])[j] == cols[4][i];
    PartsNonEmpty(Strip(cols[4]), j);
  }

  /** A well-formed row is classified by the stripped-column checks, and its
      difficulty and stimulus type are already stripped. */
  lemma WellFormedColumns(cols: seq<string>, c: Constraints)
    requires FrqWellFormedRow(cols)
    ensures var s := StripAll(cols);
      && s[0] == cols[0] && s[6] == cols[6]
      && FrqVerdict(cols, c) == StrippedFrqVerdict(s, c)
      && (s[6] == "image" ==> StartsWith(s[7], ImagePromptMarker) && |ImagePrompt(s[7])| >= MinImagePromptLength)
      && Parts(s[4]) != []
  {
    DifficultyStripped(cols[0]);
    StimulusTypeStripped(cols[6]);
    RecheckedColumns(cols);
  }

  /** The question of an accepted row is a free-response question with no id
      and no stimulus yet, whose codes and LOs are all allowed and which has
      at least one part. */
  lemma FrqAccepted(cols: seq<string>, c: Constraints, q: Question)
    requires FrqVerdict(cols, c) == Accept(q)
    ensures FrqWellFormedRow(cols)
    ensures q.Frq? && q.id.None? && q.stimulus.None? && WithinAllowLists(q, c) && q.parts != []
    ensures q.stimulusType == "image" ==> StartsWith(q.stimulusContent, ImagePromptMarker)
  {
    WellFormedColumns(cols, c);
    StrippedFrqAccepted(StripAll(cols), c, q);
  }

  /** The question of an accepted row holds the row's difficulty, its
      stripped codes and LOs split on commas and trimmed, its stripped
      context, the parsed parts and guidelines of its stripped columns, its
      stimulus type and its stripped payload. */
  lemma FrqAcceptedContent(cols: seq<string>, c: Constraints, q: Question)
    requires FrqVerdict(cols, c) == Accept(q)
    ensures |cols| == ColumnCount && q.Frq?
    ensures q.difficulty == cols[0] && q.stimulusType == cols[6]
    ensures q.skillCodes == TrimmedCommaItems(Strip(cols[1])) && q.loIds == TrimmedCommaItems(Strip(cols[2]))
    ensures q.context == Strip(cols[3]) && q.context != []
    ensures q.parts == Parts(Strip(cols[4])) && q.scoringGuidelines == ScoringGuidelines(Strip(cols[5]))
    ensures q.stimulusContent == Strip(cols[7])
  {
    WellFormedColumns(cols, c);
    StrippedFrqAccepted(StripAll(cols), c, q);
  }

  /** A row is accepted exactly when it passes the row checks and all its
      codes and LOs are allowed; the later image and parts checks never
      reject a row. */
  lemma FrqAcceptedIff(cols: seq<string>, c: Constraints)
    ensures FrqVerdict(cols, c).Accept? <==>
      && FrqWellFormedRow(cols)
      && AllAllowed(TrimmedCommaItems(Strip(cols[1])), c.allowedSkillCodes)
      && AllAllowed(TrimmedCommaItems(Strip(cols[2])), c.allowedLoIds)
  {
    if FrqWellFormedRow(cols) {
      WellFormedColumns(cols, c);
    }
  }

  /** A row fails with `row_invalid` exactly when the row checks fail, and
      then the detail is the message of the check that failed; the reasons
      `image_prompt_missing`, `image_prompt_too_short` and
      `parts_parse_failed` never occur. */
  lemma FrqRejectReasons(cols: seq<string>, c: Constraints)
    ensures FrqVerdict(cols, c).Reject? && FrqVerdict(cols, c).reason == "row_invalid" <==> !FrqWellFormedRow(cols)
    ensures forall e :: ValidateFrqRow(cols) == Some(e) ==> FrqVerdict(cols, c) == Reject("row_invalid", FrqRowErrorMessage(e))
    ensures FrqVerdict(cols, c).Reject? ==>
      FrqVerdict(cols, c).reason in {"row_invalid", "skill_not_allowed", "lo_not_allowed"}
  {
    if FrqWellFormedRow(cols) {
      WellFormedColumns(cols, c);
    }
  }

  /** A well-formed row fails on its skill codes exactly when one is not
      allowed, with the stripped skills column as detail; it fails on its
      LOs exactly when its codes are allowed and an LO is not, with the
      stripped LO column as detail. */
  lemma FrqAllowListReasons(cols: seq<string>, c: Constraints)
    requires FrqWellFormedRow(cols)
    ensures FrqVerdict(cols, c) == Reject("skill_not_allowed", Strip(cols[1])) <==>
      !AllAllowed(TrimmedCommaItems(Strip(cols[1])), c.allowedSkillCodes)
    ensures FrqVerdict(cols, c) == Reject("lo_not_allowed", Strip(cols[2])) <==>
      && AllAllowed(TrimmedCommaItems(Strip(cols[1])), c.allowedSkillCodes)
      && !AllAllowed(TrimmedCommaItems(Strip(cols[2])), c.allowedLoIds)
  {
    WellFormedColumns(cols, c);
  }

  /** What every question of a reply satisfies: an accepted free-response
      question within the allow lists, with parts, no stimulus yet, and the
      image marker in front of an image payload. */
  predicate FreshFrq(q: Question, c: Constraints) {
    && q.Frq? && q.id.None? && q.stimulus.None? && WithinAllowLists(q, c) && q.parts != []
    && (q.stimulusType == "image" ==> StartsWith(q.stimulusContent, ImagePromptMarker))
  }

  lemma FrqYieldsOnly(c: Constraints)
    ensures YieldsOnly(SetupFor(FrqsPerSet, FrqClassify(c), c), (q: Question) => FreshFrq(q, c))
  {
    var u := SetupFor(FrqsPerSet, FrqClassify(c), c);
    forall text, k | 0 <= k < |u.harvest(text).valid|
      ensures FreshFrq(u.harvest(text).valid[k], c)
    {
      var rows := TsvRows(text);
      assert u.harvest(text) == Harvested(text, FrqClassify(c));
      var q := Accepted(rows, FrqClassify(c))[k];
      var i :| 0 <= i < |rows| && FrqClassify(c)(rows[i]) == Accept(q);
      FrqAccepted(rows[i], c, q);
    }
  }

  /** `validate_rows_individually`: the questions of the accepted rows and
      the reports of the rejected ones, each row one or the other. */
  method ValidateRowsIndividually(rows: seq<seq<string>>, c: Constraints)
    returns (valid: seq<Question>, invalid: seq<Report>)
    ensures valid == Accepted(rows, FrqClassify(c)) && invalid == Rejected(rows, FrqClassify(c))
    ensures |valid| + |invalid| == |rows|
    ensures forall k | 0 <= k < |valid| :: FreshFrq(valid[k], c)
  {
    valid, invalid := ValidateRows(rows, FrqClassify(c));
    forall k | 0 <= k < |valid| ensures FreshFrq(valid[k], c) {
      var i :| 0 <= i < |rows| && FrqClassify(c)(rows[i]) == Accept(valid[k]);
      FrqAccepted(rows[i], c, valid[k]);
    }
  }

  // ---- the image pass ----

  /** The image model, outside this model: the base64 data of the image it
      makes for a prompt saved at a path, or nothing when generation fails. */
  type ImageOracle = (string, string) -> Option<string>

  /** `OUTPUT_DIR / course_name / f"unit_{unit_id}" / "images" / filename` */
  function ImagePath(courseName: string, unitId: string, filename: string): string {
    "output/" + courseName + "/unit_" + unitId + "/images/" + filename
  }

  /** Whether the image pass asks for an image for `q`. */
  predicate WantsImage(q: Question) {
    q.Frq? && q.stimulusType == "image" && StartsWith(q.stimulusContent, ImagePromptMarker)
  }

  /** Question `k` of the set after the image pass: the generated image with
      the raw prompt as its alternative text, or a failure marker; a question
      that wants no image is left as it is. */
  function WithImage(q: Question, k: int, generate: ImageOracle, courseName: string, unitId: string, setIndex: int)
    : (r: Question)
    ensures r == q.(stimulus := r.stimulus)
    ensures !WantsImage(q) ==> r == q
    ensures WantsImage(q) ==> r.stimulus.Some? && (r.stimulus.value.ImageStimulus? || r.stimulus.value == FailedImage("Image generation failed"))
    ensures WantsImage(q) && r.stimulus.value.ImageStimulus? ==>
      && r.stimulus.value.altText == ImagePrompt(q.stimulusContent)
      && r.stimulus.value.filePath == ImagePath(courseName, unitId, ImageGenerator.CreateImageFilename(courseName, "frq", unitId, setIndex, k))
  {
    if WantsImage(q) then
      var raw := ImagePrompt(q.stimulusContent);
      var path := ImagePath(courseName, unitId, ImageGenerator.CreateImageFilename(courseName, "frq", unitId, setIndex, k));
      match generate(ImageGenerator.EnhancePrompt(raw, q.context, "FRQ", courseName, "", -1), path)
      case Some(data) => WithStimulus(q, Some(ImageStimulus(path, data, raw)))
      case None => WithStimulus(q, Some(FailedImage("Image generation failed")))
    else q
  }

  /** The set after the image pass. */
  function WithImages(qs: seq<Question>, generate: ImageOracle, courseName: string, unitId: string, setIndex: int)
    : (r: seq<Question>)
    ensures |r| == |qs|
    ensures forall k | 0 <= k < |qs| :: r[k] == WithImage(qs[k], k, generate, courseName, unitId, setIndex)
  {
    seq(|qs|, k requires 0 <= k < |qs| => WithImage(qs[k], k, generate, courseName, unitId, setIndex))
  }

  /** Two generated images of one set never share a file. */
  lemma ImagePathsDistinct(qs: seq<Question>, generate: ImageOracle, courseName: string, unitId: string, setIndex: int,
                           i: int, j: int)
    requires 0 <= i < j < |qs|
    requires var r := WithImages(qs, generate, courseName, unitId, setIndex);
      WantsImage(qs[i]) && WantsImage(qs[j]) && r[i].stimulus.value.ImageStimulus? && r[j].stimulus.value.ImageStimulus?
    ensures var r := WithImages(qs, generate, courseName, unitId, setIndex);
      r[i].stimulus.value.filePath != r[j].stimulus.value.filePath
  {
    var prefix := "output/" + courseName + "/unit_" + unitId + "/images/";
    var ni := ImageGenerator.CreateImageFilename(courseName, "frq", unitId, setIndex, i);
    var nj := ImageGenerator.CreateImageFilename(courseName, "frq", unitId, setIndex, j);
    ImageGenerator.ImageFilenameInjective(courseName, "frq", unitId, setIndex, i, setIndex, j);
    if ImagePath(courseName, unitId, ni) == ImagePath(courseName, unitId, nj) {
      ImageGenerator.CancelPrefix(prefix, ni, nj);
    }
  }

  /** One pass of the image loop of `process_single_set`: the question at
      position `k` of the set, with its image generated when it wants one. */
  method FillImage(frq: Question, k: int, generate: ImageOracle, courseName: string, unitId: string, setIndex: int)
    returns (filled: Question)
    ensures filled == WithImage(frq, k, generate, courseName, unitId, setIndex)
  {
    filled := frq;
    if frq.Frq? && frq.stimulusType == "image" {
      var content := frq.stimulusContent;
      if StartsWith(content, ImagePromptMarker) {
        var rawPrompt := Strip(ReplaceAll(content, ImagePromptMarker, ""));
        var enhanced := ImageGenerator.EnhancePrompt(rawPrompt, frq.context, "FRQ", courseName, "", -1);
        var filename := ImageGenerator.CreateImageFilename(courseName, "frq", unitId, setIndex, k);
        var imagePath := ImagePath(courseName, unitId, filename);
        var outcome := generate(enhanced, imagePath);
        if outcome.Some? {
          filled := WithStimulus(frq, Some(ImageStimulus(imagePath, outcome.value, rawPrompt)));
        } else {
          filled := WithStimulus(frq, Some(FailedImage("Image generation failed")));
        }
      }
    }
  }

  /** The image loop of `process_single_set`, over the kept questions in
      place. */
  method GenerateImages(frqs: array<Question>, generate: ImageOracle, courseName: string, unitId: string, setIndex: int)
    modifies frqs
    ensures frqs[..] == WithImages(old(frqs[..]), generate, courseName, unitId, setIndex)
  {
    ghost var target := WithImages(frqs[..], generate, courseName, unitId, setIndex);
    for k := 0 to frqs.Length
      invariant frqs[..k] == target[..k]
      invariant frqs[k..] == old(frqs[k..])
    {
      frqs[k] := FillImage(frqs[k], k, generate, courseName, unitId, setIndex);
    }
    assert frqs[..] == frqs[..frqs.Length] == target[..frqs.Length] == target;
  }

  /** Runs the image pass and numbers the kept questions, in an array as the
      pipeline does, and gives them back. */
  method FinishSet(questions: seq<Question>, generate: ImageOracle, courseName: string, courseId: string,
                   unitId: string, unitIndex: int, setIndex: int)
    returns (finished: seq<Question>)
    ensures finished == WithIds(WithImages(questions, generate, courseName, unitId, setIndex), courseId, "FRQ", unitIndex, setIndex)
  {
    var frqs := new Question[|questions|](i requires 0 <= i < |questions| => questions[i]);
    assert frqs[..] == questions;
    GenerateImages(frqs, generate, courseName, unitId, setIndex);
    AssignIds(frqs, courseId, "FRQ", unitIndex, setIndex);
    finished := frqs[..];
  }

  // ---- one set ----

  /** `process_single_set`: asks for the set with the ten least-covered LOs
      first, repairs while questions are missing, keeps the first 5
      questions, generates their images, numbers them and counts their LOs
      in the tracker, or saves nothing. */
  method ProcessSingleSet(replies: seq<Reply>, generate: ImageOracle, courseName: string, courseId: string,
                          unitId: string, unitIndex: int, setIndex: int, c: Constraints, tracker: CoverageTracker)
    returns (saved: Option<seq<Question>>, session: Session)
    requires |replies| == MaxRetriesPerSet + 1
    modifies tracker
    ensures session == RunSession(replies, Utility.GetPriorityLos(old(tracker.counts), c.allowedLoIds, Some(10)),
                                  SetupFor(FrqsPerSet, FrqClassify(c), c))
    ensures saved.Some? <==> |session.questions| >= FrqsPerSet
    ensures saved.Some? ==>
      && saved.value == WithIds(WithImages(session.questions[..FrqsPerSet], generate, courseName, unitId, setIndex),
                                courseId, "FRQ", unitIndex, setIndex)
      && tracker.counts == BumpAll(old(tracker.counts), saved.value)
    ensures saved.None? ==> tracker.counts == old(tracker.counts)
  {
    var priorityLos := Utility.GetPriorityLos(tracker.counts, c.allowedLoIds, Some(10));
    var u := SetupFor(FrqsPerSet, FrqClassify(c), c);
    session := GenerateSet(replies, priorityLos, FrqClassify(c), u, c);
    if |session.questions| >= FrqsPerSet {
      var finished := FinishSet(session.questions[..FrqsPerSet], generate, courseName, courseId, unitId, unitIndex, setIndex);
      saved := Some(finished);
      tracker.RecordSet(finished);
    } else {
      saved := None;
    }
  }

  /** A saved set holds exactly 5 free-response questions within the allow
      lists, each with parts and a pairwise different id; exactly the image
      questions carry a stimulus, a generated image or a failure marker. */
  lemma SavedSetShape(replies: seq<Reply>, priorityLos: seq<string>, generate: ImageOracle, courseName: string,
                      courseId: string, unitId: string, unitIndex: int, setIndex: int, c: Constraints)
    requires |replies| == MaxRetriesPerSet + 1
    ensures var s := RunSession(replies, priorityLos, SetupFor(FrqsPerSet, FrqClassify(c), c));
      |s.questions| >= FrqsPerSet ==>
        var saved := WithIds(WithImages(s.questions[..FrqsPerSet], generate, courseName, unitId, setIndex),
                             courseId, "FRQ", unitIndex, setIndex);
        && |saved| == FrqsPerSet
        && (forall k | 0 <= k < |saved| :: saved[k].Frq? && WithinAllowLists(saved[k], c) && saved[k].parts != [])
        && (forall k | 0 <= k < |saved| :: saved[k].stimulus.Some? <==> saved[k].stimulusType == "image")
        && (forall i, j | 0 <= i < j < |saved| :: saved[i].id != saved[j].id)
  {
    var u := SetupFor(FrqsPerSet, FrqClassify(c), c);
    var p := (q: Question) => FreshFrq(q, c);
    FrqYieldsOnly(c);
    SessionYields(replies, priorityLos, u, p);
    var s := RunSession(replies, priorityLos, u);
    if |s.questions| >= FrqsPerSet {
      var kept := s.questions[..FrqsPerSet];
      var imaged := WithImages(kept, generate, courseName, unitId, setIndex);
      WithIdsDistinct(imaged, courseId, "FRQ", unitIndex, setIndex);
      var saved := WithIds(imaged, courseId, "FRQ", unitIndex, setIndex);
      forall k | 0 <= k < |saved|
        ensures saved[k].Frq? && WithinAllowLists(saved[k], c) && saved[k].parts != []
        ensures saved[k].stimulus.Some? <==> saved[k].stimulusType == "image"
      {
        assert p(s.questions[k]);
        assert kept[k] == s.questions[k];
      }
    }
  }
}

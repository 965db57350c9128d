/** The decisions inside `build_unit_context` (the same function appears in
    both compilers): the allow-lists handed to the validators, the exam
    section whose descriptions are quoted, the task-verb block of the
    free-response context, and the `trunc` helper. */
module UnitContext {
  import opened PyStrings
  import opened Records
  import opened StringOrder
  import Utility

  // ---- trunc ----

  /** `trunc(s, n)`: the whitespace-normalised text, cut to its first `n - 3`
      characters and an ellipsis when it is longer than `n`. */
  function Trunc(s: string, n: int): (r: string)
    ensures var t := Utility.NormalizeWhitespace(s);
      && (|t| <= n ==> r == t)
      && (|t| > n && n >= 3 ==> |r| == n && StartsWith(t, r[..n - 3]) && EndsWith(r, "..."))
    ensures n >= 3 ==> |r| <= n
  {
    var t := Utility.NormalizeWhitespace(s);
    if |t| <= n then t else PyPrefix(t, n - 3) + "..."
  }

  /** For `n >= 3`, truncating a truncated text changes nothing. */
  lemma TruncIdempotent(s: string, n: int)
    requires n >= 3
    ensures Trunc(Trunc(s, n), n) == Trunc(s, n)
  {
    var t := Utility.NormalizeWhitespace(s);
    var r := Trunc(s, n);
    if |t| <= n {
      Utility.NormalizeIdempotent(s);
    } else {
      var head := t[..n - 3];
      assert r == head + "...";
      assert r[|r| - 1] == '.';
      assert !IsSpace(r[0]) by {
        if n - 3 > 0 { assert r[0] == t[0]; }
      }
      StripOfStripped(r);
      assert Utility.SingleSpaceRuns(r, Utility.SpacesAndTabs) by {
        forall i | 0 <= i < |r|
          ensures Utility.InRun(r[i], Utility.SpacesAndTabs) ==> r[i] == ' '
        {
          if i < n - 3 { assert r[i] == t[i]; }
        }
        forall i | 0 <= i < |r| - 1
          ensures !(Utility.InRun(r[i], Utility.SpacesAndTabs) && Utility.InRun(r[i + 1], Utility.SpacesAndTabs))
        {
          if i + 1 < n - 3 { assert r[i] == t[i] && r[i + 1] == t[i + 1]; }
        }
      }
      Utility.CollapseFixed(r, Utility.SpacesAndTabs);
    }
  }

  // ---- the allow-lists ----

  /** The stripped entries of a list of codes. */
  function CodeSet(codes: seq<string>): set<string> {
    if codes == [] then {} else CodeSet(codes[..|codes| - 1]) + {Strip(codes[|codes| - 1])}
  }

  /** The stripped suggested subskill codes of every topic. */
  function UnitSkillCodes(topics: seq<Topic>): set<string> {
    if topics == [] then {}
    else UnitSkillCodes(topics[..|topics| - 1]) + CodeSet(topics[|topics| - 1].suggestedSubskillCodes)
  }

  lemma CodeSetSnoc(codes: seq<string>, i: int)
    requires 0 <= i < |codes|
    ensures CodeSet(codes[..i + 1]) == CodeSet(codes[..i]) + {Strip(codes[i])}
  {
    assert codes[..i + 1][..i] == codes[..i];
  }

  lemma UnitSkillCodesSnoc(topics: seq<Topic>, t: int)
    requires 0 <= t < |topics|
    ensures UnitSkillCodes(topics[..t + 1]) == UnitSkillCodes(topics[..t]) + CodeSet(topics[t].suggestedSubskillCodes)
  {
    assert topics[..t + 1][..t] == topics[..t];
  }

  /** A code is in `CodeSet` exactly when some entry strips to it. */
  lemma {:induction false} CodeSetMember(codes: seq<string>, x: string)
    ensures x in CodeSet(codes) <==> exists i | 0 <= i < |codes| :: Strip(codes[i]) == x
  {
    if codes != [] {
      var init := codes[..|codes| - 1];
      CodeSetMember(init, x);
      if x in CodeSet(init) {
        var i :| 0 <= i < |init| && Strip(init[i]) == x;
        assert Strip(codes[i]) == x;
      }
      if i :| 0 <= i < |codes| && Strip(codes[i]) == x {
        if i < |codes| - 1 { assert Strip(init[i]) == x; }
      }
    }
  }

  /** A code is in `UnitSkillCodes` exactly when it is in the stripped codes
      of some topic. */
  lemma {:induction false} UnitSkillCodesMember(topics: seq<Topic>, x: string)
    ensures x in UnitSkillCodes(topics) <==>
      exists t | 0 <= t < |topics| :: x in CodeSet(topics[t].suggestedSubskillCodes)
  {
    if topics != [] {
      var init := topics[..|topics| - 1];
      UnitSkillCodesMember(init, x);
      if x in UnitSkillCodes(init) {
        var t :| 0 <= t < |init| && x in CodeSet(init[t].suggestedSubskillCodes);
        assert topics[t] == init[t];
      }
      if t :| 0 <= t < |topics| && x in CodeSet(topics[t].suggestedSubskillCodes) {
        if t < |topics| - 1 { assert topics[t] == init[t]; }
      }
    }
  }

  /** `sorted(s)` for a set of strings. */
  method SortedList(s: set<string>) returns (r: seq<string>)
    ensures StrictlySorted(r) && Elems(r) == s
  {
    r := [];
    var rest := s;
    while rest != {}
      invariant StrictlySorted(r) && Elems(r) + rest == s
      decreases |rest|
    {
      var x :| x in rest;
      r := InsertSorted(r, x);
      rest := rest - {x};
    }
  }

  lemma AddNonBlank(allowed: set<string>, seen: set<string>, x: string)
    ensures x != "" ==> (allowed + (seen - {""})) + {x} == allowed + ((seen + {x}) - {""})
    ensures x == "" ==> allowed + (seen - {""}) == allowed + ((seen + {x}) - {""})
  {
  }

  /** The subskill-code loop of one topic: adds its non-blank stripped
      codes. */
  method AddSkillCodes(allowed: set<string>, codes: seq<string>) returns (grown: set<string>)
    ensures grown == allowed + (CodeSet(codes) - {""})
  {
    grown := allowed;
    for i := 0 to |codes|
      invariant grown == allowed + (CodeSet(codes[..i]) - {""})
    {
      var code := Strip(codes[i]);
      CodeSetSnoc(codes, i);
      AddNonBlank(allowed, CodeSet(codes[..i]), code);
      if code != "" {
        grown := grown + {code};
      }
    }
    assert codes[..|codes|] == codes;
  }

  /** The learning-objective loop of one topic: adds its non-blank stripped
      LO ids. */
  method AddLoIds(allowed: set<string>, los: seq<LearningObjective>) returns (grown: set<string>)
    ensures grown == allowed + (Utility.LoIdSet(los) - {""})
  {
    grown := allowed;
    for l := 0 to |los|
      invariant grown == allowed + (Utility.LoIdSet(los[..l]) - {""})
    {
      var loId := Strip(los[l].id);
      Utility.LoIdSetSnoc(los, l);
      AddNonBlank(allowed, Utility.LoIdSet(los[..l]), loId);
      if loId != "" {
        grown := grown + {loId};
      }
    }
    assert los[..|los|] == los;
  }

  /** The `constraints` of `build_unit_context`: every non-blank stripped
      suggested subskill code and every non-blank stripped LO id of the
      unit's topics, each list sorted and free of duplicates. */
  method BuildConstraints(unit: Unit) returns (c: Constraints)
    ensures StrictlySorted(c.allowedSkillCodes) && Elems(c.allowedSkillCodes) == UnitSkillCodes(unit.topics) - {""}
    ensures StrictlySorted(c.allowedLoIds) && Elems(c.allowedLoIds) == Utility.UnitLoIds(unit.topics) - {""}
  {
    var allowedSkillCodes: set<string> := {};
    var allowedLoIds: set<string> := {};
    var topics := unit.topics;
    for t := 0 to |topics|
      invariant allowedSkillCodes == UnitSkillCodes(topics[..t]) - {""}
      invariant allowedLoIds == Utility.UnitLoIds(topics[..t]) - {""}
    {
      allowedSkillCodes := AddSkillCodes(allowedSkillCodes, topics[t].suggestedSubskillCodes);
      UnitSkillCodesSnoc(topics, t);
      allowedLoIds := AddLoIds(allowedLoIds, topics[t].learningObjectives);
      Utility.UnitLoIdsSnoc(topics, t);
    }
    assert topics[..|topics|] == topics;
    var skillList := SortedList(allowedSkillCodes);
    var loList := SortedList(allowedLoIds);
    c := Constraints(skillList, loList);
  }

  /** The allow-lists are a function of the unit: two lists with the
      properties `BuildConstraints` promises are equal. */
  lemma ConstraintsDetermined(unit: Unit, c1: Constraints, c2: Constraints)
    requires StrictlySorted(c1.allowedSkillCodes) && Elems(c1.allowedSkillCodes) == UnitSkillCodes(unit.topics) - {""}
    requires StrictlySorted(c1.allowedLoIds) && Elems(c1.allowedLoIds) == Utility.UnitLoIds(unit.topics) - {""}
    requires StrictlySorted(c2.allowedSkillCodes) && Elems(c2.allowedSkillCodes) == UnitSkillCodes(unit.topics) - {""}
    requires StrictlySorted(c2.allowedLoIds) && Elems(c2.allowedLoIds) == Utility.UnitLoIds(unit.topics) - {""}
    ensures c1 == c2
  {
    SortedUnique(c1.allowedSkillCodes, c2.allowedSkillCodes);
    SortedUnique(c1.allowedLoIds, c2.allowedLoIds);
  }

  /** A skill code is allowed exactly when it is non-empty and some topic of
      the unit suggests it (after stripping). */
  lemma AllowedSkillCodeIff(unit: Unit, c: Constraints, x: string)
    requires Elems(c.allowedSkillCodes) == UnitSkillCodes(unit.topics) - {""}
    ensures x in c.allowedSkillCodes <==>
      x != "" && exists t, i | 0 <= t < |unit.topics| && 0 <= i < |unit.topics[t].suggestedSubskillCodes| ::
        Strip(unit.topics[t].suggestedSubskillCodes[i]) == x
  {
    UnitSkillCodesMember(unit.topics, x);
    assert x in c.allowedSkillCodes <==> x in Elems(c.allowedSkillCodes);
    if t :| 0 <= t < |unit.topics| && x in CodeSet(unit.topics[t].suggestedSubskillCodes) {
      CodeSetMember(unit.topics[t].suggestedSubskillCodes, x);
    }
    if t, i :| && 0 <= t < |unit.topics| && 0 <= i < |unit.topics[t].suggestedSubskillCodes|
               && Strip(unit.topics[t].suggestedSubskillCodes[i]) == x {
      CodeSetMember(unit.topics[t].suggestedSubskillCodes, x);
    }
  }

  // ---- exam section ----

  /** `"I" if question_type == "mcq" else "II"` */
  function SectionKey(questionType: string): (k: string)
    ensures k == "I" <==> questionType == "mcq"
    ensures k == "II" <==> questionType != "mcq"
  {
    if questionType == "mcq" then "I" else "II"
  }

  /** The position of the first section with the given key. */
  function FirstSection(sections: seq<ExamSection>, key: string): (r: Option<nat>)
    ensures r.Some? ==> r.value < |sections| && sections[r.value].section == key
    ensures r.Some? ==> forall j | 0 <= j < r.value :: sections[j].section != key
    ensures r.None? ==> forall j | 0 <= j < |sections| :: sections[j].section != key
  {
    if sections == [] then None
    else if sections[0].section == key then Some(0)
    else match FirstSection(sections[1..], key)
      case Some(j) => Some(j + 1)
      case None => None
  }

  /** The quoted descriptions, one `- ` line each. */
  function DescriptionLines(descriptions: seq<string>): (r: seq<string>)
    ensures |r| == |descriptions|
    ensures forall i | 0 <= i < |r| :: r[i] == "- " + descriptions[i]
  {
    seq(|descriptions|, i requires 0 <= i < |descriptions| => "- " + descriptions[i])
  }

  /** The `EXAM_CONTEXT:` block: the descriptions of the first section for
      the question type, or nothing when there is no such section or it has
      no descriptions. */
  function ExamContextLines(sections: seq<ExamSection>, questionType: string): seq<string> {
    match FirstSection(sections, SectionKey(questionType))
    case None => []
    case Some(j) =>
      if sections[j].descriptions == [] then []
      else ["EXAM_CONTEXT:"] + DescriptionLines(sections[j].descriptions)
  }

  /** The first section with the key is the one before which no section
      has it. */
  lemma FirstSectionAt(sections: seq<ExamSection>, key: string, k: nat)
    requires k < |sections| && sections[k].section == key
    requires forall j | 0 <= j < k :: sections[j].section != key
    ensures FirstSection(sections, key) == Some(k)
  {
  }

  /** The `- ` lines of the descriptions, built one at a time. */
  method QuoteDescriptions(descriptions: seq<string>) returns (lines: seq<string>)
    ensures lines == DescriptionLines(descriptions)
  {
    lines := [];
    for i := 0 to |descriptions|
      invariant |lines| == i
      invariant forall j | 0 <= j < i :: lines[j] == "- " + descriptions[j]
    {
      lines := lines + ["- " + descriptions[i]];
    }
  }

  /** The exam-section loop of `build_unit_context`, which stops at the first
      section with the key. */
  method ExamContext(sections: seq<ExamSection>, questionType: string) returns (lines: seq<string>)
    ensures lines == ExamContextLines(sections, questionType)
  {
    lines := [];
    var sectionKey := if questionType == "mcq" then "I" else "II";
    assert sectionKey == SectionKey(questionType);
    var k := 0;
    while k < |sections|
      invariant 0 <= k <= |sections|
      invariant forall j | 0 <= j < k :: sections[j].section != sectionKey
      invariant lines == []
    {
      if sections[k].section == sectionKey {
        FirstSectionAt(sections, sectionKey, k);
        var descriptions := sections[k].descriptions;
        if descriptions != [] {
          var quoted := QuoteDescriptions(descriptions);
          lines := ["EXAM_CONTEXT:"] + quoted;
        }
        return;
      }
      k := k + 1;
    }
  }

  /** The block quotes exactly the descriptions of the first section of the
      right part of the exam ("I" for multiple choice, "II" otherwise), and
      is absent when that section has none. */
  lemma ExamContextShape(sections: seq<ExamSection>, questionType: string)
    ensures var lines := ExamContextLines(sections, questionType);
      lines != [] <==>
        exists j | 0 <= j < |sections| ::
          && sections[j].section == SectionKey(questionType)
          && sections[j].descriptions != []
          && (forall i | 0 <= i < j :: sections[i].section != SectionKey(questionType))
    ensures var lines := ExamContextLines(sections, questionType);
      lines != [] ==>
        exists j | 0 <= j < |sections| ::
          && sections[j].section == SectionKey(questionType)
          && |lines| == |sections[j].descriptions| + 1
          && lines[0] == "EXAM_CONTEXT:"
          && (forall i | 0 <= i < |sections[j].descriptions| :: lines[i + 1] == "- " + sections[j].descriptions[i])
  {
    var key := SectionKey(questionType);
    var lines := ExamContextLines(sections, questionType);
    match FirstSection(sections, key)
    case None =>
    case Some(j) =>
      if exists j' | 0 <= j' < |sections| ::
          && sections[j'].section == key
          && sections[j'].descriptions != []
          && (forall i | 0 <= i < j' :: sections[i].section != key)
      {
        var j' :| 0 <= j' < |sections| && sections[j'].section == key && sections[j'].descriptions != []
          && (forall i | 0 <= i < j' :: sections[i].section != key);
        assert j' == j;
      }
  }

  // ---- task verbs ----

  const PriorityVerbs: seq<string> :=
    ["Calculate", "Explain", "Justify", "Describe", "Interpret", "Compare", "Identify", "Construct", "Determine", "Verify"]

  /** Some priority verb occurs in `verb`. */
  predicate IsPriorityVerb(verb: string) {
    exists k | 0 <= k < |PriorityVerbs| :: Contains(verb, PriorityVerbs[k])
  }

  /** `desc[:100] + ("..." if len(desc) > 100 else "")` */
  function ShortDescription(desc: string): string {
    if |desc| > 100 then desc[..100] + "..." else desc
  }

  /** A description of up to 100 characters is kept; a longer one is cut to
      its first 100 and marked with an ellipsis. */
  lemma ShortDescriptionShape(desc: string)
    ensures |desc| <= 100 ==> ShortDescription(desc) == desc
    ensures |desc| > 100 ==> var r := ShortDescription(desc);
      |r| == 103 && StartsWith(desc, r[..100]) && EndsWith(r, "...")
  {
    if |desc| > 100 {
      var r := ShortDescription(desc);
      assert r[..100] == desc[..100];
      assert r[100..] == "...";
    }
  }

  function VerbLine(v: TaskVerb): string {
    "  " + v.verb + ": " + ShortDescription(v.description)
  }

  /** The task verbs that contain a priority verb, in order. */
  function PriorityTaskVerbs(verbs: seq<TaskVerb>): (r: seq<TaskVerb>)
    ensures |r| <= |verbs|
  {
    if verbs == [] then []
    else
      var init := verbs[..|verbs| - 1];
      var v := verbs[|verbs| - 1];
      if IsPriorityVerb(v.verb) then PriorityTaskVerbs(init) + [v] else PriorityTaskVerbs(init)
  }

  /** Exactly the task verbs that contain a priority verb are kept. */
  lemma {:induction false} PriorityTaskVerbsExact(verbs: seq<TaskVerb>)
    ensures forall v :: v in PriorityTaskVerbs(verbs) <==> v in verbs && IsPriorityVerb(v.verb)
  {
    if verbs != [] {
      var init := verbs[..|verbs| - 1];
      PriorityTaskVerbsExact(init);
      assert verbs == init + [verbs[|verbs| - 1]];
    }
  }

  /** Each kept task verb is one of the verbs and contains a priority verb. */
  lemma {:induction false} PriorityTaskVerbAt(verbs: seq<TaskVerb>, j: int)
    requires 0 <= j < |PriorityTaskVerbs(verbs)|
    ensures PriorityTaskVerbs(verbs)[j] in verbs && IsPriorityVerb(PriorityTaskVerbs(verbs)[j].verb)
  {
    var init := verbs[..|verbs| - 1];
    var v := verbs[|verbs| - 1];
    if j < |PriorityTaskVerbs(init)| {
      PriorityTaskVerbAt(init, j);
      assert PriorityTaskVerbs(verbs)[j] == PriorityTaskVerbs(init)[j];
      assert PriorityTaskVerbs(init)[j] in verbs;
    }
  }

  /** The line of each task verb, in order. */
  function VerbLines(verbs: seq<TaskVerb>): seq<string> {
    if verbs == [] then [] else VerbLines(verbs[..|verbs| - 1]) + [VerbLine(verbs[|verbs| - 1])]
  }

  lemma {:induction false} VerbLinesAt(verbs: seq<TaskVerb>)
    ensures |VerbLines(verbs)| == |verbs|
    ensures forall i | 0 <= i < |verbs| :: VerbLines(verbs)[i] == VerbLine(verbs[i])
  {
    if verbs != [] {
      var n := |verbs|;
      var init := verbs[..n - 1];
      VerbLinesAt(init);
      forall i | 0 <= i < n ensures VerbLines(verbs)[i] == VerbLine(verbs[i]) {
        if i < n - 1 {
          assert init[i] == verbs[i];
        }
      }
    }
  }

  /** The `TASK_VERBS:` block: present only for free-response questions. */
  function TaskVerbLines(questionType: string, verbs: seq<TaskVerb>): seq<string> {
    if questionType == "frq" then ["TASK_VERBS:"] + VerbLines(PriorityTaskVerbs(verbs)) else []
  }

  lemma TaskVerbsSnoc(verbs: seq<TaskVerb>, k: int)
    requires 0 <= k < |verbs|
    ensures IsPriorityVerb(verbs[k].verb) ==>
      VerbLines(PriorityTaskVerbs(verbs[..k + 1])) == VerbLines(PriorityTaskVerbs(verbs[..k])) + [VerbLine(verbs[k])]
    ensures !IsPriorityVerb(verbs[k].verb) ==>
      VerbLines(PriorityTaskVerbs(verbs[..k + 1])) == VerbLines(PriorityTaskVerbs(verbs[..k]))
  {
    assert verbs[..k + 1][..k] == verbs[..k];
    var chosen := PriorityTaskVerbs(verbs[..k]);
    assert (chosen + [verbs[k]])[..|chosen|] == chosen;
  }

  lemma SnocRegroup<T>(a: seq<T>, b: seq<T>, x: T)
    ensures (a + b) + [x] == a + (b + [x])
  {
  }

  /** One step of the task-verb loop: the block grows by the verb's line
      exactly when the verb contains a priority verb. */
  lemma TaskVerbStep(verbs: seq<TaskVerb>, k: int, lines: seq<string>)
    requires 0 <= k < |verbs| && lines == ["TASK_VERBS:"] + VerbLines(PriorityTaskVerbs(verbs[..k]))
    ensures IsPriorityVerb(verbs[k].verb) ==>
      lines + [VerbLine(verbs[k])] == ["TASK_VERBS:"] + VerbLines(PriorityTaskVerbs(verbs[..k + 1]))
    ensures !IsPriorityVerb(verbs[k].verb) ==>
      lines == ["TASK_VERBS:"] + VerbLines(PriorityTaskVerbs(verbs[..k + 1]))
  {
    TaskVerbsSnoc(verbs, k);
    SnocRegroup(["TASK_VERBS:"], VerbLines(PriorityTaskVerbs(verbs[..k])), VerbLine(verbs[k]));
  }

  /** The line of one task verb, its description cut as the loop does. */
  method FormatVerbLine(v: TaskVerb) returns (line: string)
    ensures line == VerbLine(v)
  {
    var desc := v.description;
    var descShort := desc[..if |desc| < 100 then |desc| else 100] + (if |desc| > 100 then "..." else "");
    assert descShort == ShortDescription(desc) by {
      if |desc| <= 100 { assert desc[..|desc|] == desc; }
    }
    line := "  " + v.verb + ": " + descShort;
  }

  /** The task-verb loop of `build_unit_context`. */
  method TaskVerbBlock(questionType: string, verbs: seq<TaskVerb>) returns (lines: seq<string>)
    ensures lines == TaskVerbLines(questionType, verbs)
  {
    lines := [];
    if questionType == "frq" {
      lines := lines + ["TASK_VERBS:"];
      for k := 0 to |verbs|
        invariant lines == ["TASK_VERBS:"] + VerbLines(PriorityTaskVerbs(verbs[..k]))
      {
        TaskVerbStep(verbs, k, lines);
        if IsPriorityVerb(verbs[k].verb) {
          var line := FormatVerbLine(verbs[k]);
          lines := lines + [line];
        }
      }
      assert verbs[..|verbs|] == verbs;
    }
  }

  /** The block is there exactly for free-response questions and opens with
      its heading. */
  lemma TaskVerbHeading(questionType: string, verbs: seq<TaskVerb>)
    ensures var lines := TaskVerbLines(questionType, verbs);
      (lines != [] <==> questionType == "frq") && (lines != [] ==> lines[0] == "TASK_VERBS:")
  {
  }

  /** `line` is the line of one of the verbs that contains a priority
      verb. */
  predicate IsPriorityLine(verbs: seq<TaskVerb>, line: string) {
    exists v | v in verbs :: IsPriorityVerb(v.verb) && line == VerbLine(v)
  }

  /** The block holds no line but that of a task verb containing a priority
      verb. */
  lemma TaskVerbShape(questionType: string, verbs: seq<TaskVerb>)
    ensures forall i | 1 <= i < |TaskVerbLines(questionType, verbs)| ::
      IsPriorityLine(verbs, TaskVerbLines(questionType, verbs)[i])
  {
    var lines := TaskVerbLines(questionType, verbs);
    if questionType == "frq" {
      var chosen := PriorityTaskVerbs(verbs);
      assert lines == ["TASK_VERBS:"] + VerbLines(chosen);
      VerbLinesAt(chosen);
      forall i | 1 <= i < |lines| ensures IsPriorityLine(verbs, lines[i]) {
        PriorityTaskVerbAt(verbs, i - 1);
        var v := chosen[i - 1];
        assert v in verbs && IsPriorityVerb(v.verb) && lines[i] == VerbLine(v);
      }
    } else {
      assert lines == [];
    }
  }

  /** In the free-response block every task verb containing a priority verb
      has its line. */
  lemma TaskVerbsComplete(verbs: seq<TaskVerb>)
    ensures forall v | v in verbs && IsPriorityVerb(v.verb) :: VerbLine(v) in TaskVerbLines("frq", verbs)
  {
    var lines := TaskVerbLines("frq", verbs);
    PriorityTaskVerbsExact(verbs);
    var chosen := PriorityTaskVerbs(verbs);
    VerbLinesAt(chosen);
    forall v | v in verbs && IsPriorityVerb(v.verb)
      ensures VerbLine(v) in lines
    {
      var i :| 0 <= i < |chosen| && chosen[i] == v;
      assert lines[i + 1] == VerbLine(v);
    }
  }
}

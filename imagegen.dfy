/** The string building of `utils/image_generator.py`: the file name of a
    generated image and the prompt sent to the image model. */
module ImageGenerator {
  import opened PyStrings

  // ---- file names ----

  /** `{course_name}_{question_type}_u{unit_id}_s{set_index}_q{question_index}.jpeg` */
  function CreateImageFilename(courseName: string, questionType: string, unitId: string,
                               setIndex: int, questionIndex: int): (r: string)
    ensures StartsWith(r, FilenamePrefix(courseName, questionType, unitId))
    ensures EndsWith(r, ".jpeg")
  {
    var prefix := FilenamePrefix(courseName, questionType, unitId);
    var tail := IntToString(questionIndex) + ".jpeg";
    var r := prefix + (IntToString(setIndex) + ("_q" + tail));
    StartsWithAppend(prefix, IntToString(setIndex) + ("_q" + tail));
    assert r[|r| - 5..] == ".jpeg";
    r
  }

  function FilenamePrefix(courseName: string, questionType: string, unitId: string): string {
    courseName + "_" + questionType + "_u" + unitId + "_s"
  }

  lemma StartsWithAppend(p: string, rest: string)
    ensures StartsWith(p + rest, p)
  {
    assert (p + rest)[..|p|] == p;
  }

  lemma CancelPrefix(a: string, x: string, y: string)
    requires a + x == a + y
    ensures x == y
  {
    assert x == (a + x)[|a|..];
    assert y == (a + y)[|a|..];
  }

  lemma CancelSuffix(x: string, y: string, b: string)
    requires x + b == y + b
    ensures x == y
  {
    assert x == (x + b)[..|x|];
    assert y == (y + b)[..|y|];
  }

  lemma NoUnderscoreInNumber(i: int)
    ensures '_' !in IntToString(i)
  {
  }

  /** In `a + "_q" + x` with `a` free of `_`, the first `_` is just after `a`. */
  lemma MarkerPosition(a: string, x: string, k: int)
    requires '_' !in a && 0 <= k <= |a|
    ensures (a + ("_q" + x))[k] == '_' <==> k == |a|
  {
    if k < |a| {
      assert (a + ("_q" + x))[k] == a[k];
    }
  }

  /** Two strings free of `_`, each followed by `_q`, are equal when what
      follows them is. */
  lemma CutAtMarker(a: string, x: string, b: string, y: string)
    requires '_' !in a && '_' !in b
    requires a + ("_q" + x) == b + ("_q" + y)
    ensures a == b && x == y
  {
    var l := a + ("_q" + x);
    if |a| <= |b| {
      MarkerPosition(a, x, |a|);
      MarkerPosition(b, y, |a|);
    } else {
      MarkerPosition(b, y, |b|);
      MarkerPosition(a, x, |b|);
    }
    assert a == l[..|a|];
    assert b == l[..|b|];
    CancelPrefix(a, "_q" + x, "_q" + y);
    CancelPrefix("_q", x, y);
  }

  /** Within one course, question type and unit, different (set, question)
      positions give different file names, so no image overwrites another. */
  lemma ImageFilenameInjective(courseName: string, questionType: string, unitId: string,
                               s1: int, q1: int, s2: int, q2: int)
    requires s1 != s2 || q1 != q2
    ensures CreateImageFilename(courseName, questionType, unitId, s1, q1)
         != CreateImageFilename(courseName, questionType, unitId, s2, q2)
  {
    var prefix := FilenamePrefix(courseName, questionType, unitId);
    if CreateImageFilename(courseName, questionType, unitId, s1, q1)
       == CreateImageFilename(courseName, questionType, unitId, s2, q2) {
      CancelPrefix(prefix, IntToString(s1) + ("_q" + (IntToString(q1) + ".jpeg")),
                           IntToString(s2) + ("_q" + (IntToString(q2) + ".jpeg")));
      NoUnderscoreInNumber(s1);
      NoUnderscoreInNumber(s2);
      CutAtMarker(IntToString(s1), IntToString(q1) + ".jpeg", IntToString(s2), IntToString(q2) + ".jpeg");
      CancelSuffix(IntToString(q1), IntToString(q2), ".jpeg");
      if s1 != s2 { IntToStringInjective(s1, s2); } else { IntToStringInjective(q1, q2); }
    }
  }

  // ---- the image prompt ----

  /** The opening line naming the course and question type, and a blank line. */
  function Header(courseName: string, questionType: string): string {
    "You are creating an image for an " + courseName + " " + questionType + " exam.\n\n"
  }

  const RenderingRules :=
    "CRITICAL RENDERING RULES:\n"
    + "- Create ONLY the visual stimulus described below\n"
    + "- DO NOT include the question text in the image\n"
    + "- DO NOT include answer choices (A/B/C/D) in the image\n"
    + "- DO NOT add question-related titles or captions\n"
    + "- The image should be a clean, standalone visual that students reference to answer the question\n"
    + "- Include only data labels, axis labels, diagram labels (not question-related text)\n\n"

  const QualitySuffix :=
    "\n\nQUALITY REQUIREMENTS:\n"
    + "- Highly detailed and visually clear\n"
    + "- Professional AP exam styling\n"
    + "- Clean lines and high contrast\n"
    + "- Well-composed and suitable for standardized testing\n"

  /** The raw prompt under its heading, then the quality requirements. */
  function ImageBlock(rawPrompt: string): string {
    "IMAGE TO CREATE:\n" + rawPrompt + QualitySuffix
  }

  /** The question stem block, present only for a non-empty stem. */
  function ContextBlock(stem: string): string {
    if stem != "" then "QUESTION CONTEXT:\n" + stem + "\n" else ""
  }

  /** The line naming the correct choice, when the index picks one of the
      newline-separated choices. */
  function CorrectBlock(choices: string, correctIndex: int): string {
    var lines := Split(choices, '\n');
    if 0 <= correctIndex < |lines| then "\nCORRECT ANSWER: " + lines[correctIndex] + "\n" else ""
  }

  function ChoicesHeading(choices: string): string {
    "\nANSWER CHOICES:\n" + choices + "\n"
  }

  /** The answer choices block, only for a multiple-choice question with
      choices. */
  function ChoicesBlock(choices: string, questionType: string, correctIndex: int): string {
    if choices != "" && questionType == "MCQ" then
      ChoicesHeading(choices) + CorrectBlock(choices, correctIndex)
    else ""
  }

  /** The prompt from its blocks: header, context, choices, a blank line, the
      rendering rules and the image block. */
  function Assemble(header: string, context: string, choicesPart: string, rules: string, image: string): string {
    header + (context + (choicesPart + ("\n" + (rules + image))))
  }

  /** `enhance_prompt_for_image_generation` */
  function EnhancePrompt(rawPrompt: string, stem: string, questionType: string, courseName: string,
                         choices: string, correctIndex: int): string {
    Assemble(Header(courseName, questionType), ContextBlock(stem), ChoicesBlock(choices, questionType, correctIndex),
             RenderingRules, ImageBlock(rawPrompt))
  }

  lemma RulesOpening()
    ensures |RenderingRules| >= 2 && RenderingRules[0] == 'C' && RenderingRules[1] == 'R'
  {
  }

  lemma Regroup(a: string, b: string, c: string)
    ensures a + (b + c) == (a + b) + c
  {
  }

  lemma StartsWithPrepend(p: string, s: string, t: string)
    requires StartsWith(s, t)
    ensures StartsWith(p + s, p + t)
  {
    assert (p + s)[..|p + t|] == p + s[..|t|];
  }

  lemma StartsWithTrans(s: string, t: string, u: string)
    requires StartsWith(s, t) && StartsWith(t, u)
    ensures StartsWith(s, u)
  {
    assert s[..|u|] == s[..|t|][..|u|];
  }

  lemma StartsWithAt(s: string, t: string, k: int)
    requires StartsWith(s, t) && 0 <= k < |t|
    ensures s[k] == t[k]
  {
    assert s[..|t|][k] == s[k];
  }

  lemma EndsWithPrepend(p: string, s: string, t: string)
    requires EndsWith(s, t)
    ensures EndsWith(p + s, t)
  {
    assert (p + s)[|p + s| - |t|..] == s[|s| - |t|..];
  }

  lemma AssembleFrame(h: string, c: string, ch: string, rules: string, image: string)
    ensures StartsWith(Assemble(h, c, ch, rules, image), h) && EndsWith(Assemble(h, c, ch, rules, image), image)
  {
    StartsWithAppend(h, c + (ch + ("\n" + (rules + image))));
    assert EndsWith(image, image);
    EndsWithPrepend(rules, image, image);
    EndsWithPrepend("\n", rules + image, image);
    EndsWithPrepend(ch, "\n" + (rules + image), image);
    EndsWithPrepend(c, ch + ("\n" + (rules + image)), image);
    EndsWithPrepend(h, c + (ch + ("\n" + (rules + image))), image);
  }

  /** The prompt opens with the course header and closes with the raw prompt
      under its heading, followed by the quality requirements. */
  lemma EnhancedPromptFrame(rawPrompt: string, stem: string, questionType: string, courseName: string,
                            choices: string, correctIndex: int)
    ensures var r := EnhancePrompt(rawPrompt, stem, questionType, courseName, choices, correctIndex);
      StartsWith(r, Header(courseName, questionType)) && EndsWith(r, ImageBlock(rawPrompt))
  {
    AssembleFrame(Header(courseName, questionType), ContextBlock(stem), ChoicesBlock(choices, questionType, correctIndex),
                  RenderingRules, ImageBlock(rawPrompt));
  }

  lemma AssembleContext(h: string, stem: string, ch: string, rules: string, image: string)
    requires ch == "" || ch[0] == '\n'
    ensures StartsWith(Assemble(h, ContextBlock(stem), ch, rules, image), h + "QUESTION CONTEXT:\n") <==> stem != ""
  {
    var c := ContextBlock(stem);
    var rest := ch + ("\n" + (rules + image));
    var r := Assemble(h, c, ch, rules, image);
    if stem != "" {
      StartsWithAppend("QUESTION CONTEXT:\n", stem + "\n");
      StartsWithAppend(c, rest);
      StartsWithTrans(c + rest, c, "QUESTION CONTEXT:\n");
      StartsWithPrepend(h, c + rest, "QUESTION CONTEXT:\n");
    } else if StartsWith(r, h + "QUESTION CONTEXT:\n") {
      assert c + rest == rest;
      assert rest[0] == '\n';
      StartsWithAt(r, h + "QUESTION CONTEXT:\n", |h|);
      assert false;
    }
  }

  /** The question context follows the header exactly when the stem is
      non-empty. */
  lemma EnhancedPromptContext(rawPrompt: string, stem: string, questionType: string, courseName: string,
                              choices: string, correctIndex: int)
    ensures StartsWith(EnhancePrompt(rawPrompt, stem, questionType, courseName, choices, correctIndex),
                       Header(courseName, questionType) + "QUESTION CONTEXT:\n")
        <==> stem != ""
  {
    var ch := ChoicesBlock(choices, questionType, correctIndex);
    if ch != "" {
      StartsWithAppend(ChoicesHeading(choices), CorrectBlock(choices, correctIndex));
      StartsWithAt(ch, ChoicesHeading(choices), 0);
    }
    AssembleContext(Header(courseName, questionType), stem, ch, RenderingRules, ImageBlock(rawPrompt));
  }

  lemma AssembleChoices(p: string, choices: string, questionType: string, correctIndex: int, rules: string, image: string)
    requires |rules| >= 1 && rules[0] == 'C'
    ensures var ch := ChoicesBlock(choices, questionType, correctIndex);
      StartsWith(p + (ch + ("\n" + (rules + image))), p + "\nANSWER CHOICES:\n")
      <==> choices != "" && questionType == "MCQ"
  {
    var ch := ChoicesBlock(choices, questionType, correctIndex);
    var after := ch + ("\n" + (rules + image));
    var r := p + after;
    if choices != "" && questionType == "MCQ" {
      StartsWithAppend("\nANSWER CHOICES:\n", choices + "\n");
      StartsWithAppend(ChoicesHeading(choices), CorrectBlock(choices, correctIndex));
      StartsWithAppend(ch, "\n" + (rules + image));
      StartsWithTrans(after, ch, ChoicesHeading(choices));
      StartsWithTrans(after, ChoicesHeading(choices), "\nANSWER CHOICES:\n");
      StartsWithPrepend(p, after, "\nANSWER CHOICES:\n");
    } else if StartsWith(r, p + "\nANSWER CHOICES:\n") {
      assert after == "\n" + (rules + image);
      assert after[1] == 'C';
      StartsWithAt(r, p + "\nANSWER CHOICES:\n", |p| + 1);
      assert false;
    }
  }

  /** After the header and the context block, the answer choices come next
      exactly when the question is multiple-choice and has choices. */
  lemma EnhancedPromptChoices(rawPrompt: string, stem: string, questionType: string, courseName: string,
                              choices: string, correctIndex: int)
    ensures StartsWith(EnhancePrompt(rawPrompt, stem, questionType, courseName, choices, correctIndex),
                       Header(courseName, questionType) + ContextBlock(stem) + "\nANSWER CHOICES:\n")
        <==> choices != "" && questionType == "MCQ"
  {
    var h := Header(courseName, questionType);
    var c := ContextBlock(stem);
    var rest := ChoicesBlock(choices, questionType, correctIndex) + ("\n" + (RenderingRules + ImageBlock(rawPrompt)));
    Regroup(h, c, rest);
    RulesOpening();
    AssembleChoices(h + c, choices, questionType, correctIndex, RenderingRules, ImageBlock(rawPrompt));
  }

  lemma AssembleCorrect(p: string, choices: string, correctIndex: int, rules: string, image: string)
    requires |rules| >= 2 && rules[1] == 'R'
    ensures var r := p + (CorrectBlock(choices, correctIndex) + ("\n" + (rules + image)));
      var lines := Split(choices, '\n');
      && (StartsWith(r, p + "\nCORRECT ANSWER: ") <==> 0 <= correctIndex < |lines|)
      && (0 <= correctIndex < |lines| ==> StartsWith(r, p + ("\nCORRECT ANSWER: " + lines[correctIndex] + "\n")))
  {
    var correct := CorrectBlock(choices, correctIndex);
    var after := correct + ("\n" + (rules + image));
    var r := p + after;
    var lines := Split(choices, '\n');
    StartsWithAppend(correct, "\n" + (rules + image));
    StartsWithPrepend(p, after, correct);
    if 0 <= correctIndex < |lines| {
      StartsWithAppend("\nCORRECT ANSWER: ", lines[correctIndex] + "\n");
      assert correct == "\nCORRECT ANSWER: " + (lines[correctIndex] + "\n");
      StartsWithPrepend(p, correct, "\nCORRECT ANSWER: ");
      StartsWithTrans(r, p + correct, p + "\nCORRECT ANSWER: ");
    } else if StartsWith(r, p + "\nCORRECT ANSWER: ") {
      assert after == "\n" + (rules + image);
      assert after[2] == 'R';
      StartsWithAt(r, p + "\nCORRECT ANSWER: ", |p| + 2);
      assert false;
    }
  }

  /** After the choices, the correct-answer line comes next exactly when the
      index picks one of the choice lines, and it shows that line. */
  lemma EnhancedPromptCorrect(rawPrompt: string, stem: string, courseName: string,
                              choices: string, correctIndex: int)
    requires choices != ""
    ensures var r := EnhancePrompt(rawPrompt, stem, "MCQ", courseName, choices, correctIndex);
      var p := Header(courseName, "MCQ") + ContextBlock(stem) + ChoicesHeading(choices);
      var lines := Split(choices, '\n');
      && (StartsWith(r, p + "\nCORRECT ANSWER: ") <==> 0 <= correctIndex < |lines|)
      && (0 <= correctIndex < |lines| ==> StartsWith(r, p + ("\nCORRECT ANSWER: " + lines[correctIndex] + "\n")))
  {
    var h := Header(courseName, "MCQ");
    var c := ContextBlock(stem);
    var hd := ChoicesHeading(choices);
    var correct := CorrectBlock(choices, correctIndex);
    var closing := "\n" + (RenderingRules + ImageBlock(rawPrompt));
    Regroup(hd, correct, closing);
    Regroup(h, c, hd + (correct + closing));
    Regroup(h + c, hd, correct + closing);
    RulesOpening();
    AssembleCorrect((h + c) + hd, choices, correctIndex, RenderingRules, ImageBlock(rawPrompt));
  }
}

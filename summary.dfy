/** `summarize_invalid_reports`: the error digest handed back to the model in a
    repair prompt. Rejection reports are grouped by reason (first-seen order),
    each group keeping its distinct non-empty details; the groups are listed
    by falling detail count, with fixed guidance lines per known reason. */
module ErrorSummary {
  import opened PyStrings
  import opened Records
  import opened StableSort

  /** One entry of `reason_groups`. */
  datatype Group = Group(reason: string, details: seq<string>)

  predicate Distinct(xs: seq<string>) {
    forall i, j | 0 <= i < j < |xs| :: xs[i] != xs[j]
  }

  /** `xs` with every element kept at its first occurrence only. */
  function Dedup(xs: seq<string>): (r: seq<string>)
    ensures forall x :: x in r <==> x in xs
    ensures Distinct(r)
  {
    if xs == [] then []
    else
      var init := xs[..|xs| - 1];
      var last := xs[|xs| - 1];
      assert xs == init + [last];
      var d := Dedup(init);
      if last in init then d else d + [last]
  }

  /** The reason of every report, in order. */
  function Reasons(reports: seq<Report>): (r: seq<string>)
    ensures |r| == |reports|
    ensures forall k | 0 <= k < |r| :: r[k] == reports[k].reason
  {
    if reports == [] then [] else Reasons(reports[..|reports| - 1]) + [reports[|reports| - 1].reason]
  }

  /** The non-empty details reported under `reason`, in order. */
  function DetailsFor(reports: seq<Report>, reason: string): seq<string> {
    if reports == [] then []
    else
      var last := reports[|reports| - 1];
      DetailsFor(reports[..|reports| - 1], reason)
        + (if last.reason == reason && last.detail != "" then [last.detail] else [])
  }

  lemma {:induction false} DetailsForMember(reports: seq<Report>, reason: string, d: string)
    ensures d in DetailsFor(reports, reason) <==>
      (d != "" && exists k | 0 <= k < |reports| :: reports[k].reason == reason && reports[k].detail == d)
  {
    if reports != [] {
      var init := reports[..|reports| - 1];
      DetailsForMember(init, reason, d);
      if d != "" && exists k | 0 <= k < |reports| :: reports[k].reason == reason && reports[k].detail == d {
        var k :| 0 <= k < |reports| && reports[k].reason == reason && reports[k].detail == d;
        if k < |reports| - 1 { assert init[k] == reports[k]; }
      }
      if exists k | 0 <= k < |init| :: init[k].reason == reason && init[k].detail == d {
        var k :| 0 <= k < |init| && init[k].reason == reason && init[k].detail == d;
        assert reports[k] == init[k];
      }
    }
  }

  /** Position of the group for `reason`. */
  function FindReason(groups: seq<Group>, reason: string): (r: Option<nat>)
    ensures r.Some? ==> r.value < |groups| && groups[r.value].reason == reason
    ensures r.None? <==> forall i | 0 <= i < |groups| :: groups[i].reason != reason
  {
    if groups == [] then None
    else if groups[0].reason == reason then Some(0)
    else match FindReason(groups[1..], reason)
      case None => None
      case Some(i) => Some(i + 1)
  }

  /** `if reason not in reason_groups: reason_groups[reason] = []`: the groups
      and the position of the group for `reason`. */
  function OpenGroup(groups: seq<Group>, reason: string): (r: (seq<Group>, nat))
    ensures r.1 < |r.0| && r.0[r.1].reason == reason
  {
    match FindReason(groups, reason)
    case Some(i) => (groups, i)
    case None => (groups + [Group(reason, [])], |groups|)
  }

  /** `if detail and detail not in details: details.append(detail)` */
  function AddDetailTo(g: Group, detail: string): Group {
    if detail != "" && detail !in g.details then Group(g.reason, g.details + [detail]) else g
  }

  function AddDetail(groups: seq<Group>, at: nat, detail: string): seq<Group>
    requires at < |groups|
  {
    groups[at := AddDetailTo(groups[at], detail)]
  }

  /** One pass of the grouping loop. */
  function AddReport(groups: seq<Group>, report: Report): seq<Group> {
    var (gs, at) := OpenGroup(groups, report.reason);
    AddDetail(gs, at, report.detail)
  }

  /** `reason_groups` after the whole list of reports. */
  function GroupReports(reports: seq<Report>): seq<Group> {
    if reports == [] then [] else AddReport(GroupReports(reports[..|reports| - 1]), reports[|reports| - 1])
  }

  function GroupReasons(groups: seq<Group>): (r: seq<string>)
    ensures |r| == |groups| && forall i | 0 <= i < |r| :: r[i] == groups[i].reason
  {
    seq(|groups|, i requires 0 <= i < |groups| => groups[i].reason)
  }

  lemma DedupSnoc(xs: seq<string>, y: string)
    ensures Dedup(xs + [y]) == if y in xs then Dedup(xs) else Dedup(xs) + [y]
  {
    assert (xs + [y])[..|xs|] == xs;
  }

  lemma DetailsForSnoc(init: seq<Report>, x: Report, reason: string)
    ensures DetailsFor(init + [x], reason)
      == DetailsFor(init, reason) + (if x.reason == reason && x.detail != "" then [x.detail] else [])
  {
    assert (init + [x])[..|init|] == init;
  }

  /** `groups` is what the grouping loop holds after `reports`: the distinct
      reasons in first-seen order, each with the distinct non-empty details
      reported under it, first-seen first. */
  predicate Summarizes(groups: seq<Group>, reports: seq<Report>) {
    GroupReasons(groups) == Dedup(Reasons(reports))
    && forall i | 0 <= i < |groups| :: groups[i].details == Dedup(DetailsFor(reports, groups[i].reason))
  }

  lemma {:induction false} GroupReportsSpec(reports: seq<Report>)
    ensures Summarizes(GroupReports(reports), reports)
  {
    if reports != [] {
      var init := reports[..|reports| - 1];
      var x := reports[|reports| - 1];
      assert reports == init + [x];
      GroupReportsSpec(init);
      AddReportStep(GroupReports(init), init, x);
    }
  }

  /** One pass of the grouping loop keeps `Summarizes`. */
  lemma AddReportStep(groups: seq<Group>, init: seq<Report>, x: Report)
    requires Summarizes(groups, init)
    ensures Summarizes(AddReport(groups, x), init + [x])
  {
    var rs := Reasons(init);
    assert Reasons(init + [x]) == rs + [x.reason] by {
      assert (init + [x])[..|init|] == init;
    }
    DedupSnoc(rs, x.reason);
    var found := FindReason(groups, x.reason);
    if found.Some? {
      assert GroupReasons(groups)[found.value] == x.reason;
      StepFound(groups, init, x, found.value);
    } else {
      assert x.reason !in GroupReasons(groups);
      DetailsForAbsent(init, x.reason);
      StepNew(groups, init, x);
    }
  }

  /** A report under one reason leaves the details of every other group as
      they were. */
  lemma OtherGroupsUnchanged(groups: seq<Group>, init: seq<Report>, x: Report)
    requires Distinct(GroupReasons(groups))
    ensures forall j | 0 <= j < |groups| && groups[j].reason != x.reason ::
      DetailsFor(init + [x], groups[j].reason) == DetailsFor(init, groups[j].reason)
  {
    forall j | 0 <= j < |groups| && groups[j].reason != x.reason
      ensures DetailsFor(init + [x], groups[j].reason) == DetailsFor(init, groups[j].reason)
    {
      DetailsForSnoc(init, x, groups[j].reason);
    }
  }

  /** The group's own details after the report. */
  lemma OwnGroupDetails(g: Group, init: seq<Report>, x: Report)
    requires g.reason == x.reason && g.details == Dedup(DetailsFor(init, x.reason))
    ensures AddDetailTo(g, x.detail).details == Dedup(DetailsFor(init + [x], x.reason))
  {
    var ds := DetailsFor(init, x.reason);
    DetailsForSnoc(init, x, x.reason);
    if x.detail != "" {
      DedupSnoc(ds, x.detail);
    } else {
      assert ds + [] == ds;
    }
  }

  lemma StepFound(groups: seq<Group>, init: seq<Report>, x: Report, at: nat)
    requires Summarizes(groups, init)
    requires at < |groups| && groups[at].reason == x.reason
    requires Dedup(Reasons(init + [x])) == Dedup(Reasons(init))
    ensures Summarizes(AddDetail(groups, at, x.detail), init + [x])
  {
    AddDetailReasons(groups, at, x.detail);
    StepFoundDetails(groups, init, x, at);
  }

  lemma AddDetailReasons(groups: seq<Group>, at: nat, detail: string)
    requires at < |groups|
    ensures GroupReasons(AddDetail(groups, at, detail)) == GroupReasons(groups)
  {
  }

  lemma StepFoundDetails(groups: seq<Group>, init: seq<Report>, x: Report, at: nat)
    requires Distinct(GroupReasons(groups))
    requires forall i | 0 <= i < |groups| :: groups[i].details == Dedup(DetailsFor(init, groups[i].reason))
    requires at < |groups| && groups[at].reason == x.reason
    ensures var g' := AddDetail(groups, at, x.detail);
      forall j | 0 <= j < |g'| :: g'[j].details == Dedup(DetailsFor(init + [x], g'[j].reason))
  {
    OtherGroupsUnchanged(groups, init, x);
    OwnGroupDetails(groups[at], init, x);
    var g' := AddDetail(groups, at, x.detail);
    forall j | 0 <= j < |g'| && j != at ensures groups[j].reason != x.reason {
      assert GroupReasons(groups)[j] != GroupReasons(groups)[at];
    }
  }

  lemma StepNew(groups: seq<Group>, init: seq<Report>, x: Report)
    requires Summarizes(groups, init)
    requires x.reason !in GroupReasons(groups) && DetailsFor(init, x.reason) == []
    requires Dedup(Reasons(init + [x])) == Dedup(Reasons(init)) + [x.reason]
    ensures Summarizes(AddDetail(groups + [Group(x.reason, [])], |groups|, x.detail), init + [x])
  {
    var ng := AddDetailTo(Group(x.reason, []), x.detail);
    assert AddDetail(groups + [Group(x.reason, [])], |groups|, x.detail) == groups + [ng];
    GroupReasonsSnoc(groups, ng);
    OwnGroupDetails(Group(x.reason, []), init, x);
    NewGroupDetails(groups, init, x, ng);
  }

  lemma GroupReasonsSnoc(groups: seq<Group>, g: Group)
    ensures GroupReasons(groups + [g]) == GroupReasons(groups) + [g.reason]
  {
  }

  /** Opening a group for a new reason leaves the other groups' details
      right. */
  lemma NewGroupDetails(groups: seq<Group>, init: seq<Report>, x: Report, ng: Group)
    requires forall i | 0 <= i < |groups| :: groups[i].details == Dedup(DetailsFor(init, groups[i].reason))
    requires x.reason !in GroupReasons(groups)
    requires ng.reason == x.reason && ng.details == Dedup(DetailsFor(init + [x], x.reason))
    ensures forall j | 0 <= j < |groups| + 1 ::
      (groups + [ng])[j].details == Dedup(DetailsFor(init + [x], (groups + [ng])[j].reason))
  {
    forall j | 0 <= j < |groups| + 1
      ensures (groups + [ng])[j].details == Dedup(DetailsFor(init + [x], (groups + [ng])[j].reason))
    {
      if j < |groups| {
        var r := groups[j].reason;
        assert GroupReasons(groups)[j] == r && r != x.reason;
        DetailsForSnoc(init, x, r);
        assert DetailsFor(init, r) + [] == DetailsFor(init, r);
        assert (groups + [ng])[j] == groups[j];
      } else {
        assert (groups + [ng])[j] == ng;
      }
    }
  }

  lemma {:induction false} DetailsForAbsent(reports: seq<Report>, reason: string)
    requires reason !in Reasons(reports)
    ensures DetailsFor(reports, reason) == []
  {
    if reports != [] {
      var init := reports[..|reports| - 1];
      assert Reasons(reports) == Reasons(init) + [reports[|reports| - 1].reason];
      DetailsForAbsent(init, reason);
    }
  }

  /** What the grouping means: one group per distinct reason reported, and in
      each group exactly the distinct non-empty details reported under it. */
  lemma GroupReportsMeaning(reports: seq<Report>)
    ensures Distinct(GroupReasons(GroupReports(reports)))
    ensures forall r :: r in GroupReasons(GroupReports(reports)) <==> r in Reasons(reports)
    ensures forall g, d | g in GroupReports(reports) ::
      Distinct(g.details)
      && (d in g.details <==>
          (d != "" && exists k | 0 <= k < |reports| :: reports[k].reason == g.reason && reports[k].detail == d))
  {
    GroupReportsSpec(reports);
    var gs := GroupReports(reports);
    forall g, d | g in gs
      ensures Distinct(g.details)
      ensures d in g.details <==>
        (d != "" && exists k | 0 <= k < |reports| :: reports[k].reason == g.reason && reports[k].detail == d)
    {
      var i :| 0 <= i < |gs| && gs[i] == g;
      DetailsForMember(reports, g.reason, d);
    }
  }

  /** The sort key `-len(details)`. */
  function GroupKey(g: Group): int {
    -|g.details|
  }

  /** `sorted(reason_groups.items(), key=lambda x: -len(x[1]))` */
  function SortedGroups(reports: seq<Report>): seq<Group> {
    SortByKey(GroupReports(reports), GroupKey)
  }

  /** The groups are listed by falling detail count; groups with as many
      details keep their first-seen order; no group is lost or repeated. */
  lemma SortedGroupsOrder(reports: seq<Report>, v: int)
    ensures var s := SortedGroups(reports);
      && multiset(s) == multiset(GroupReports(reports))
      && (forall i, j | 0 <= i < j < |s| :: |s[i].details| >= |s[j].details|)
      && WithKey(s, GroupKey, v) == WithKey(GroupReports(reports), GroupKey, v)
  {
    var s := SortedGroups(reports);
    forall i, j | 0 <= i < j < |s| ensures |s[i].details| >= |s[j].details| {
      assert GroupKey(s[i]) <= GroupKey(s[j]);
    }
    SortStable(GroupReports(reports), GroupKey, v);
  }

  const Header := "Common errors from previous attempts:"
  const Footer := "CRITICAL REMINDER: Generate COMPLETE, VALID TSV rows following ALL format rules."
  const NoErrors := "No specific errors recorded."

  /** A line of the summary: a headline (written after `- `), a guidance line
      (written after two spaces and an arrow) or a line written as it is. */
  datatype Line = Headline(text: string) | Guidance(text: string) | Plain(text: string)

  function Render(line: Line): string {
    match line
    case Headline(t) => "- " + t
    case Guidance(t) => "  \U{2192} " + t
    case Plain(t) => t
  }

  function RenderAll(lines: seq<Line>): (r: seq<string>)
    ensures |r| == |lines| && forall k | 0 <= k < |r| :: r[k] == Render(lines[k])
  {
    seq(|lines|, k requires 0 <= k < |lines| => Render(lines[k]))
  }

  /** `list(set(details))[:8]`, taken in first-seen order. */
  function Preview(details: seq<string>): (r: seq<string>)
    ensures |r| == if |details| < 8 then |details| else 8
    ensures forall k | 0 <= k < |r| :: r[k] in details
  {
    PyPrefix(details, 8)
  }

  /** The reasons that get their own guidance. */
  datatype ReasonKind = RowInvalid | SkillNotAllowed | LoNotAllowed | SvgInvalid | TableInvalid | OtherReason

  function KindOf(reason: string): ReasonKind {
    if reason == "row_invalid" then RowInvalid
    else if reason == "skill_not_allowed" then SkillNotAllowed
    else if reason == "lo_not_allowed" then LoNotAllowed
    else if reason == "svg_invalid" then SvgInvalid
    else if reason == "table_invalid" then TableInvalid
    else OtherReason
  }

  /** The headline of a group: the count and what went wrong; for any other
      reason the reason, the count and the first detail cut to 60 characters. */
  function HeadlineText(g: Group): string {
    var count := IntToString(|g.details|);
    match KindOf(g.reason)
    case RowInvalid => count + " rows had structural/format errors"
    case SkillNotAllowed => count + " questions used INVALID skill codes"
    case LoNotAllowed => count + " questions used INVALID learning objective IDs"
    case SvgInvalid => count + " questions had invalid SVG graphics"
    case TableInvalid => count + " questions had invalid table format"
    case OtherReason =>
      if g.details != [] then g.reason + " (" + count + "x): " + PyPrefix(g.details[0], 60)
      else g.reason + " (" + count + "x)"
  }

  /** The guidance lines under a headline. */
  function GuidanceTexts(g: Group): seq<string> {
    match KindOf(g.reason)
    case RowInvalid =>
      [ "Each row MUST have exactly 11 tab-separated columns (MCQ) or 8 columns (FRQ)",
        "Use TAB character (\\t) between columns, NOT spaces",
        "Ensure difficulty is easy/medium/hard",
        "Ensure correct_idx is 0/1/2/3 (MCQ)" ]
    case SkillNotAllowed =>
      [ "Invalid codes found: " + Join(", ", Preview(g.details)),
        "ONLY use codes from ALLOWED_SKILLS in unit context",
        "Double-check each skill code before using" ]
    case LoNotAllowed =>
      [ "Invalid IDs found: " + Join(", ", Preview(g.details)),
        "ONLY use IDs from ALLOWED_LOS in unit context",
        "Cross-reference each LO ID carefully" ]
    case SvgInvalid =>
      [ "SVG MUST start with <svg and end with </svg>",
        "NO <script> tags allowed (security)",
        "Font size must be \U{2265} 12",
        "Maximum 8 <text> elements" ]
    case TableInvalid =>
      [ "ALL rows must start AND end with | character",
        "Second row MUST be separator: | --- | --- |",
        "ALL rows must have SAME column count",
        "Use literal \\n between rows (not actual newlines)" ]
    case OtherReason => []
  }

  /** What one group writes: its headline and its guidance lines. */
  datatype Block = Block(headline: string, guidance: seq<string>)

  function GroupBlock(g: Group): Block {
    Block(HeadlineText(g), GuidanceTexts(g))
  }

  function Blocks(groups: seq<Group>): (r: seq<Block>)
    ensures |r| == |groups| && forall k | 0 <= k < |r| :: r[k] == GroupBlock(groups[k])
  {
    seq(|groups|, k requires 0 <= k < |groups| => GroupBlock(groups[k]))
  }

  function GuidanceLines(texts: seq<string>): seq<Line> {
    if texts == [] then [] else GuidanceLines(texts[..|texts| - 1]) + [Guidance(texts[|texts| - 1])]
  }

  /** The lines of one block: the headline, then the guidance. */
  function BlockLines(b: Block): seq<Line> {
    [Headline(b.headline)] + GuidanceLines(b.guidance)
  }

  /** The lines of the blocks, one after another. */
  function BlocksLines(blocks: seq<Block>): seq<Line> {
    if blocks == [] then [] else BlocksLines(blocks[..|blocks| - 1]) + BlockLines(blocks[|blocks| - 1])
  }

  /** The lines of a non-empty summary. */
  function SummaryLines(reports: seq<Report>): seq<Line> {
    [Plain(Header)] + BlocksLines(Blocks(SortedGroups(reports))) + [Plain(""), Plain(Footer)]
  }

  /** The text `summarize_invalid_reports` returns. */
  function Summary(reports: seq<Report>): string {
    if reports == [] then NoErrors else Join("\n", RenderAll(SummaryLines(reports)))
  }

  /** How many lines are headlines. */
  function Headlines(lines: seq<Line>): nat {
    if lines == [] then 0
    else Headlines(lines[..|lines| - 1]) + (if lines[|lines| - 1].Headline? then 1 else 0)
  }

  lemma {:induction false} HeadlinesConcat(a: seq<Line>, b: seq<Line>)
    ensures Headlines(a + b) == Headlines(a) + Headlines(b)
    decreases |b|
  {
    if b == [] {
      assert a + b == a;
    } else {
      assert (a + b)[..|a + b| - 1] == a + b[..|b| - 1];
      HeadlinesConcat(a, b[..|b| - 1]);
    }
  }

  lemma {:induction false} GuidanceLinesNoHeadline(texts: seq<string>)
    ensures Headlines(GuidanceLines(texts)) == 0
  {
    if texts != [] {
      var init := GuidanceLines(texts[..|texts| - 1]);
      GuidanceLinesNoHeadline(texts[..|texts| - 1]);
      assert (init + [Guidance(texts[|texts| - 1])])[..|init|] == init;
    }
  }

  /** Every block contributes exactly one headline. */
  lemma {:induction false} BlocksLinesHeadlines(blocks: seq<Block>)
    ensures Headlines(BlocksLines(blocks)) == |blocks|
  {
    if blocks != [] {
      var b := blocks[|blocks| - 1];
      BlocksLinesHeadlines(blocks[..|blocks| - 1]);
      HeadlinesConcat(BlocksLines(blocks[..|blocks| - 1]), BlockLines(b));
      HeadlinesConcat([Headline(b.headline)], GuidanceLines(b.guidance));
      GuidanceLinesNoHeadline(b.guidance);
      assert Headlines([Headline(b.headline)]) == 1 by {
        assert [Headline(b.headline)][..0] == [];
      }
    }
  }

  /** A non-empty summary carries one headline per distinct reason reported. */
  lemma SummaryHeadlines(reports: seq<Report>)
    ensures Headlines(SummaryLines(reports)) == |Dedup(Reasons(reports))|
  {
    var blocks := Blocks(SortedGroups(reports));
    var mid := BlocksLines(blocks);
    BlocksLinesHeadlines(blocks);
    HeadlinesConcat([Plain(Header)], mid);
    HeadlinesConcat([Plain(Header)] + mid, [Plain(""), Plain(Footer)]);
    assert Headlines([Plain(Header)]) == 0 by { assert [Plain(Header)][..0] == []; }
    assert Headlines([Plain(""), Plain(Footer)]) == 0 by {
      assert [Plain(""), Plain(Footer)][..1] == [Plain("")];
      assert [Plain("")][..0] == [];
    }
    GroupReportsSpec(reports);
    assert |GroupReasons(GroupReports(reports))| == |GroupReports(reports)|;
  }

  lemma FramedJoin(first: string, mid: seq<Line>, last: string)
    ensures var lines := RenderAll([Plain(first)] + mid + [Plain(""), Plain(last)]);
      StartsWith(Join("\n", lines), first) && EndsWith(Join("\n", lines), last)
  {
    var lines := RenderAll([Plain(first)] + mid + [Plain(""), Plain(last)]);
    assert lines[0] == first;
    assert lines[|lines| - 1] == last;
    JoinStartsWith("\n", lines);
    JoinEndsWith("\n", lines);
  }

  /** A non-empty summary opens with the header line and closes with the
      reminder. */
  lemma SummaryFrame(reports: seq<Report>)
    requires reports != []
    ensures StartsWith(Summary(reports), Header)
    ensures EndsWith(Summary(reports), Footer)
  {
    FramedJoin(Header, BlocksLines(Blocks(SortedGroups(reports))), Footer);
  }

  lemma BlocksLinesSnoc(blocks: seq<Block>, j: nat)
    requires j < |blocks|
    ensures BlocksLines(blocks[..j + 1]) == BlocksLines(blocks[..j]) + BlockLines(blocks[j])
  {
    assert blocks[..j + 1][..j] == blocks[..j];
  }

  lemma ConcatAssoc<T>(a: seq<T>, b: seq<T>, c: seq<T>)
    ensures (a + b) + c == a + (b + c)
  {
  }

  /** One pass of the grouping loop, on the list of groups. */
  method AddReportToGroups(groups: seq<Group>, report: Report) returns (groups': seq<Group>)
    ensures groups' == AddReport(groups, report)
  {
    groups' := groups;
    var found := FindReason(groups', report.reason);
    var at: nat;
    if found.None? {
      groups' := groups' + [Group(report.reason, [])];
      at := |groups'| - 1;
    } else {
      at := found.value;
    }
    if report.detail != "" && report.detail !in groups'[at].details {
      groups' := groups'[at := Group(report.reason, groups'[at].details + [report.detail])];
    }
  }

  /** The grouping loop of `summarize_invalid_reports`. */
  method GroupReportsLoop(reports: seq<Report>) returns (groups: seq<Group>)
    ensures groups == GroupReports(reports)
  {
    groups := [];
    for i := 0 to |reports|
      invariant groups == GroupReports(reports[..i])
    {
      assert reports[..i + 1][..i] == reports[..i];
      groups := AddReportToGroups(groups, reports[i]);
    }
    assert reports[..|reports|] == reports;
  }

  /** The line-building loop over the sorted groups' blocks. */
  method BlocksLinesLoop(blocks: seq<Block>) returns (lines: seq<Line>)
    ensures lines == [Plain(Header)] + BlocksLines(blocks)
  {
    lines := [Plain(Header)];
    for j := 0 to |blocks|
      invariant lines == [Plain(Header)] + BlocksLines(blocks[..j])
    {
      BlocksLinesSnoc(blocks, j);
      ConcatAssoc([Plain(Header)], BlocksLines(blocks[..j]), BlockLines(blocks[j]));
      lines := lines + BlockLines(blocks[j]);
    }
    assert blocks[..|blocks|] == blocks;
  }

  /** `summarize_invalid_reports`: the grouping loop over the reports, then the
      line-building loop over the sorted groups. */
  method SummarizeInvalidReports(reports: seq<Report>) returns (text: string)
    ensures text == Summary(reports)
  {
    if reports == [] {
      return NoErrors;
    }
    var groups := GroupReportsLoop(reports);
    var lines := BlocksLinesLoop(Blocks(SortByKey(groups, GroupKey)));
    lines := lines + [Plain(""), Plain(Footer)];
    text := Join("\n", RenderAll(lines));
  }
}

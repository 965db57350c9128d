/** The shared helpers of both compilers: whitespace clean-up, the course
    metadata lookups, learning-objective coverage and its priority list. */
module Utility {
  import opened PyStrings
  import opened Records
  import opened StableSort

  // ---- whitespace ----

  /** The characters a whitespace-collapsing substitution works on:
      `[ \t]` or `\s`. */
  datatype RunClass = SpacesAndTabs | Whitespace

  predicate InRun(c: char, cls: RunClass) {
    if cls == SpacesAndTabs then c == ' ' || c == '\t' else IsSpace(c)
  }

  /** `s` without its leading run of `cls` characters. */
  function DropRun(s: string, cls: RunClass): (r: string)
    ensures |r| <= |s| && r == s[|s| - |r|..]
    ensures r == [] || !InRun(r[0], cls)
    ensures forall i | 0 <= i < |s| - |r| :: InRun(s[i], cls)
  {
    if s != [] && InRun(s[0], cls) then DropRun(s[1..], cls) else s
  }

  /** Each run of `cls` characters shows as one space and none is next to
      another. */
  predicate SingleSpaceRuns(s: string, cls: RunClass) {
    && (forall i | 0 <= i < |s| :: InRun(s[i], cls) ==> s[i] == ' ')
    && (forall i | 0 <= i < |s| - 1 :: !(InRun(s[i], cls) && InRun(s[i + 1], cls)))
  }

  /** `re.sub(run + "+", " ", s)`: every maximal run of `cls` characters
      becomes a single space. */
  function CollapseRuns(s: string, cls: RunClass): (r: string)
    ensures SingleSpaceRuns(r, cls)
    ensures s != [] ==> r != [] && (InRun(r[0], cls) <==> InRun(s[0], cls))
    ensures s != [] && !InRun(s[0], cls) ==> r[0] == s[0]
    ensures s != [] && !InRun(s[|s| - 1], cls) ==> r != [] && r[|r| - 1] == s[|s| - 1]
    decreases |s|
  {
    if s == [] then []
    else if InRun(s[0], cls) then
      var rest := DropRun(s, cls);
      assert !InRun(s[|s| - 1], cls) ==> rest != [] && rest[|rest| - 1] == s[|s| - 1];
      " " + CollapseRuns(rest, cls)
    else [s[0]] + CollapseRuns(s[1..], cls)
  }

  /** A string whose runs are already single spaces is left as it is. */
  lemma {:induction false} CollapseFixed(s: string, cls: RunClass)
    requires SingleSpaceRuns(s, cls)
    ensures CollapseRuns(s, cls) == s
    decreases |s|
  {
    if s != [] {
      if InRun(s[0], cls) {
        assert DropRun(s, cls) == s[1..];
      }
      CollapseFixed(s[1..], cls);
      assert s == [s[0]] + s[1..];
    }
  }

  /** `s` with every `inRun` character removed. */
  function Squeeze(s: string, cls: RunClass): string {
    if s == [] then [] else (if InRun(s[0], cls) then [] else [s[0]]) + Squeeze(s[1..], cls)
  }

  lemma {:induction false} SqueezeConcat(a: string, b: string, cls: RunClass)
    ensures Squeeze(a + b, cls) == Squeeze(a, cls) + Squeeze(b, cls)
  {
    if a == [] {
      assert a + b == b;
    } else {
      assert (a + b)[0] == a[0] && (a + b)[1..] == a[1..] + b;
      SqueezeConcat(a[1..], b, cls);
    }
  }

  lemma {:induction false} SqueezeRun(s: string, cls: RunClass)
    requires forall i | 0 <= i < |s| :: InRun(s[i], cls)
    ensures Squeeze(s, cls) == []
  {
    if s != [] { SqueezeRun(s[1..], cls); }
  }

  lemma {:induction false} SqueezeDropRun(s: string, cls: RunClass)
    ensures Squeeze(DropRun(s, cls), cls) == Squeeze(s, cls)
  {
    if s != [] && InRun(s[0], cls) { SqueezeDropRun(s[1..], cls); }
  }

  /** Collapsing runs changes nothing but the run characters. */
  lemma {:induction false} CollapseKeepsOthers(s: string, cls: RunClass)
    ensures Squeeze(CollapseRuns(s, cls), cls) == Squeeze(s, cls)
    decreases |s|
  {
    if s != [] {
      if InRun(s[0], cls) {
        var rest := DropRun(s, cls);
        CollapseKeepsOthers(rest, cls);
        SqueezeDropRun(s, cls);
        SqueezeConcat(" ", CollapseRuns(rest, cls), cls);
        assert Squeeze(" ", cls) == [];
      } else {
        CollapseKeepsOthers(s[1..], cls);
        SqueezeConcat([s[0]], CollapseRuns(s[1..], cls), cls);
      }
    }
  }

  /** `normalize_whitespace`: strip, then each run of spaces and tabs becomes
      one space; line breaks inside are kept. */
  function NormalizeWhitespace(s: string): (r: string)
    ensures r == [] || (!IsSpace(r[0]) && !IsSpace(r[|r| - 1]))
    ensures SingleSpaceRuns(r, SpacesAndTabs)
    ensures r == [] <==> IsBlank(s)
  {
    CollapseRuns(Strip(s), SpacesAndTabs)
  }

  /** Normalising twice is normalising once. */
  lemma NormalizeIdempotent(s: string)
    ensures NormalizeWhitespace(NormalizeWhitespace(s)) == NormalizeWhitespace(s)
  {
    var r := NormalizeWhitespace(s);
    StripOfStripped(r);
    CollapseFixed(r, SpacesAndTabs);
  }

  /** Apart from spaces and tabs, normalising keeps every character of the
      stripped text, in order (line breaks included). */
  lemma NormalizeKeepsOthers(s: string)
    ensures Squeeze(NormalizeWhitespace(s), SpacesAndTabs) == Squeeze(Strip(s), SpacesAndTabs)
  {
    CollapseKeepsOthers(Strip(s), SpacesAndTabs);
  }

  /** The lines `safe_join_lines` keeps: the non-blank ones, right-stripped. */
  function KeptLines(lines: seq<string>): (r: seq<string>)
    ensures |r| <= |lines|
    ensures forall k | 0 <= k < |r| :: r[k] != [] && !IsSpace(r[k][|r[k]| - 1])
    ensures (forall k | 0 <= k < |lines| :: '\n' !in lines[k]) ==> forall k | 0 <= k < |r| :: '\n' !in r[k]
  {
    if lines == [] then []
    else
      var rest := KeptLines(lines[1..]);
      if IsBlank(lines[0]) then rest
      else
        var first := RStrip(lines[0]);
        TrailingSpacesAreSpaces(lines[0]);
        assert first != [];
        [first] + rest
  }

  /** `safe_join_lines`: the non-blank lines, right-stripped, joined by "\n". */
  function SafeJoinLines(lines: seq<string>): string {
    Join("\n", KeptLines(lines))
  }

  /** For lines without line feeds, splitting the joined text on "\n" gives
      back exactly the kept lines; with nothing kept the text is empty. */
  lemma SafeJoinLinesSplit(lines: seq<string>)
    requires forall k | 0 <= k < |lines| :: '\n' !in lines[k]
    ensures KeptLines(lines) == [] ==> SafeJoinLines(lines) == ""
    ensures KeptLines(lines) != [] ==> Split(SafeJoinLines(lines), '\n') == KeptLines(lines)
  {
    if KeptLines(lines) != [] {
      SplitJoin(KeptLines(lines), '\n');
    }
  }

  /** `compress_lo_description`. The phrase rewriting is given as `abbreviate`;
      what is modelled is the empty-input case and the final clean-up
      (`re.sub(r'\s+', ' ', ...).strip()`). */
  function CompressLoDescription(text: string, abbreviate: string -> string): (r: string)
    ensures text == [] ==> r == []
    ensures r == [] || (!IsSpace(r[0]) && !IsSpace(r[|r| - 1]))
    ensures SingleSpaceRuns(r, Whitespace)
  {
    if text == [] then text
    else
      var c := CollapseRuns(abbreviate(text), Whitespace);
      StripKeepsSingleSpaceRuns(c);
      Strip(c)
  }

  /** `Strip(s)` is the slice `s[a..b]`, and everything outside it is whitespace. */
  lemma StripBounds(s: string) returns (a: nat, b: nat)
    ensures a <= b <= |s| && Strip(s) == s[a..b]
    ensures forall i | 0 <= i < a :: IsSpace(s[i])
    ensures forall i | b <= i < |s| :: IsSpace(s[i])
  {
    a := LeadingSpaces(s);
    var l := s[a..];
    b := a + |l| - TrailingSpaces(l);
    LeadingSpacesAreSpaces(s);
    TrailingSpacesAreSpaces(l);
    assert forall i | b <= i < |s| :: s[i] == l[i - a];
  }

  lemma StripKeepsSingleSpaceRuns(s: string)
    requires SingleSpaceRuns(s, Whitespace)
    ensures SingleSpaceRuns(Strip(s), Whitespace)
  {
    var a, b := StripBounds(s);
    assert forall i | 0 <= i < b - a :: s[a..b][i] == s[a + i];
  }

  /** Stripping removes whitespace only. */
  lemma SqueezeStrip(s: string)
    ensures Squeeze(Strip(s), Whitespace) == Squeeze(s, Whitespace)
  {
    var a, b := StripBounds(s);
    assert s == s[..a] + s[a..b] + s[b..];
    SqueezeConcat(s[..a] + s[a..b], s[b..], Whitespace);
    SqueezeConcat(s[..a], s[a..b], Whitespace);
    SqueezeRun(s[..a], Whitespace);
    SqueezeRun(s[b..], Whitespace);
  }

  /** The clean-up keeps every non-whitespace character of the rewritten text,
      in order. */
  lemma CompressKeepsOthers(text: string, abbreviate: string -> string)
    requires text != []
    ensures Squeeze(CompressLoDescription(text, abbreviate), Whitespace) == Squeeze(abbreviate(text), Whitespace)
  {
    var c := CollapseRuns(abbreviate(text), Whitespace);
    CollapseKeepsOthers(abbreviate(text), Whitespace);
    SqueezeStrip(c);
  }

  // ---- course metadata lookups ----

  datatype SkillInfo = SkillInfo(category: string, description: string)

  datatype BigIdeaInfo = BigIdeaInfo(name: string, description: string)

  /** The dict built by `out[key] = value` for each pair in turn, pairs with an
      empty key skipped. */
  function LastWins<V>(pairs: seq<(string, V)>): map<string, V> {
    if pairs == [] then map[]
    else
      var n := |pairs|;
      var m := LastWins(pairs[..n - 1]);
      if pairs[n - 1].0 == "" then m else m[pairs[n - 1].0 := pairs[n - 1].1]
  }

  lemma ExtendSlice<T>(a: seq<T>, b: seq<T>, s: int)
    requires 0 <= s < |b|
    ensures a + b[..s + 1] == (a + b[..s]) + [b[s]]
  {
  }

  lemma SliceSnoc<T>(b: seq<T>, s: int)
    requires 0 <= s < |b|
    ensures b[..s + 1] == b[..s] + [b[s]]
  {
  }

  lemma LastWinsSnoc<V>(pairs: seq<(string, V)>, p: (string, V))
    ensures LastWins(pairs + [p]) == if p.0 == "" then LastWins(pairs) else LastWins(pairs)[p.0 := p.1]
  {
    assert (pairs + [p])[..|pairs|] == pairs;
  }

  function KeySet<V>(pairs: seq<(string, V)>): set<string> {
    if pairs == [] then {} else KeySet(pairs[..|pairs| - 1]) + {pairs[|pairs| - 1].0}
  }

  lemma {:induction false} KeySetConcat<V>(a: seq<(string, V)>, b: seq<(string, V)>)
    ensures KeySet(a + b) == KeySet(a) + KeySet(b)
    decreases |b|
  {
    if b == [] {
      assert a + b == a;
    } else {
      KeySetConcat(a, b[..|b| - 1]);
      assert (a + b)[..|a + b| - 1] == a + b[..|b| - 1];
    }
  }

  lemma {:induction false} KeySetMember<V>(pairs: seq<(string, V)>, i: int)
    requires 0 <= i < |pairs|
    ensures pairs[i].0 in KeySet(pairs)
  {
    if i < |pairs| - 1 {
      KeySetMember(pairs[..|pairs| - 1], i);
    }
  }

  /** Exactly the non-empty keys of the pairs are keys of the dict. */
  lemma {:induction false} LastWinsKeys<V>(pairs: seq<(string, V)>)
    ensures LastWins(pairs).Keys == KeySet(pairs) - {""}
  {
    if pairs != [] {
      var n := |pairs|;
      LastWinsKeys(pairs[..n - 1]);
    }
  }

  lemma {:induction false} LastWinsNoEmptyKey<V>(pairs: seq<(string, V)>)
    ensures "" !in LastWins(pairs)
  {
    if pairs != [] {
      LastWinsNoEmptyKey(pairs[..|pairs| - 1]);
    }
  }

  lemma KeySetSnoc<V>(pairs: seq<(string, V)>, p: (string, V))
    ensures KeySet(pairs + [p]) == KeySet(pairs) + {p.0}
  {
    assert (pairs + [p])[..|pairs|] == pairs;
  }

  lemma DropSnoc<T>(s: seq<T>, j: nat)
    requires j < |s|
    ensures s[j..] == s[..|s| - 1][j..] + [s[|s| - 1]]
  {
  }

  /** A later entry for a key overrides an earlier one: each key maps to the
      value of its last entry. */
  lemma {:induction false} LastWinsValue<V>(pairs: seq<(string, V)>, k: string)
    requires k in LastWins(pairs)
    ensures exists i | 0 <= i < |pairs| :: pairs[i] == (k, LastWins(pairs)[k]) && k !in KeySet(pairs[i + 1..])
  {
    var n := |pairs|;
    var front, last := pairs[..n - 1], pairs[n - 1];
    LastWinsNoEmptyKey(pairs);
    if last.0 != k {
      assert k in LastWins(front) && LastWins(pairs)[k] == LastWins(front)[k];
      LastWinsValue(front, k);
      var i :| 0 <= i < n - 1 && front[i] == (k, LastWins(front)[k]) && k !in KeySet(front[i + 1..]);
      DropSnoc(pairs, i + 1);
      KeySetSnoc(front[i + 1..], last);
      assert pairs[i] == (k, LastWins(pairs)[k]) && k !in KeySet(pairs[i + 1..]);
    } else {
      assert pairs[n..] == [];
      assert pairs[n - 1] == (k, LastWins(pairs)[k]) && k !in KeySet(pairs[n..]);
    }
  }

  /** The `(code, info)` entries of one skill category. */
  function CategoryPairs(cat: SkillCategory): seq<(string, SkillInfo)> {
    seq(|cat.subskills|, j requires 0 <= j < |cat.subskills| =>
      (Strip(cat.subskills[j].subskillName), SkillInfo(cat.skillName, cat.subskills[j].subskillDescription)))
  }

  /** All subskill entries, category by category. */
  function SkillPairs(skills: seq<SkillCategory>): seq<(string, SkillInfo)> {
    if skills == [] then [] else SkillPairs(skills[..|skills| - 1]) + CategoryPairs(skills[|skills| - 1])
  }

  /** The stripped subskill names of every category. */
  function SubskillCodes(skills: seq<SkillCategory>): set<string> {
    if skills == [] then {} else SubskillCodes(skills[..|skills| - 1]) + KeySet(CategoryPairs(skills[|skills| - 1]))
  }

  lemma {:induction false} SkillPairsKeys(skills: seq<SkillCategory>)
    ensures KeySet(SkillPairs(skills)) == SubskillCodes(skills)
  {
    if skills != [] {
      var n := |skills|;
      SkillPairsKeys(skills[..n - 1]);
      KeySetConcat(SkillPairs(skills[..n - 1]), CategoryPairs(skills[n - 1]));
    }
  }

  /** `build_skill_lookup`: subskill code (stripped name) to its category and
      description. Exactly the non-empty codes are keys; a later subskill with
      the same code overrides an earlier one. */
  method BuildSkillLookup(skills: seq<SkillCategory>) returns (out: map<string, SkillInfo>)
    ensures out == LastWins(SkillPairs(skills))
    ensures out.Keys == SubskillCodes(skills) - {""}
  {
    out := map[];
    for c := 0 to |skills|
      invariant out == LastWins(SkillPairs(skills[..c]))
    {
      var cat := skills[c];
      var before := SkillPairs(skills[..c]);
      var entries := CategoryPairs(cat);
      assert skills[..c + 1][..c] == skills[..c];
      assert before + entries[..0] == before;
      for s := 0 to |entries|
        invariant out == LastWins(before + entries[..s])
      {
        var (code, info) := entries[s];
        ExtendSlice(before, entries, s);
        LastWinsSnoc(before + entries[..s], entries[s]);
        if code != "" {
          out := out[code := info];
        }
      }
      assert entries[..|entries|] == entries;
    }
    assert skills[..|skills|] == skills;
    LastWinsKeys(SkillPairs(skills));
    SkillPairsKeys(skills);
  }

  function BigIdeaPairs(bigIdeas: seq<BigIdea>): seq<(string, BigIdeaInfo)> {
    seq(|bigIdeas|, i requires 0 <= i < |bigIdeas| =>
      (Strip(bigIdeas[i].id), BigIdeaInfo(bigIdeas[i].name, bigIdeas[i].description)))
  }

  /** `build_big_idea_lookup`: stripped big idea id to its name and
      description; exactly the non-empty ids are keys, the last entry wins. */
  method BuildBigIdeaLookup(bigIdeas: seq<BigIdea>) returns (out: map<string, BigIdeaInfo>)
    ensures out == LastWins(BigIdeaPairs(bigIdeas))
    ensures out.Keys == KeySet(BigIdeaPairs(bigIdeas)) - {""}
  {
    out := map[];
    var pairs := BigIdeaPairs(bigIdeas);
    for i := 0 to |bigIdeas|
      invariant out == LastWins(pairs[..i])
    {
      SliceSnoc(pairs, i);
      LastWinsSnoc(pairs[..i], pairs[i]);
      var id := Strip(bigIdeas[i].id);
      if id != "" {
        out := out[id := BigIdeaInfo(bigIdeas[i].name, bigIdeas[i].description)];
      }
    }
    assert pairs[..|bigIdeas|] == pairs;
    LastWinsKeys(pairs);
  }

  // ---- learning-objective coverage ----

  /** The stripped ids of a list of learning objectives. */
  function LoIdSet(los: seq<LearningObjective>): set<string> {
    if los == [] then {} else LoIdSet(los[..|los| - 1]) + {Strip(los[|los| - 1].id)}
  }

  /** The stripped LO ids of every topic. */
  function UnitLoIds(topics: seq<Topic>): set<string> {
    if topics == [] then {} else UnitLoIds(topics[..|topics| - 1]) + LoIdSet(topics[|topics| - 1].learningObjectives)
  }

  lemma LoIdSetSnoc(los: seq<LearningObjective>, l: int)
    requires 0 <= l < |los|
    ensures LoIdSet(los[..l + 1]) == LoIdSet(los[..l]) + {Strip(los[l].id)}
  {
    assert los[..l + 1][..l] == los[..l];
  }

  lemma UnitLoIdsSnoc(topics: seq<Topic>, t: int)
    requires 0 <= t < |topics|
    ensures UnitLoIds(topics[..t + 1]) == UnitLoIds(topics[..t]) + LoIdSet(topics[t].learningObjectives)
  {
    assert topics[..t + 1][..t] == topics[..t];
  }

  /** The inner loop of `initialize_lo_coverage`: a zero counter for each
      non-empty stripped LO id of one topic. */
  method ZeroTopicLos(coverage: map<string, int>, los: seq<LearningObjective>) returns (coverage': map<string, int>)
    ensures coverage'.Keys == coverage.Keys + (LoIdSet(los) - {""})
    ensures forall id | id in coverage' :: coverage'[id] == if id != "" && id in LoIdSet(los) then 0 else coverage[id]
  {
    coverage' := coverage;
    for l := 0 to |los|
      invariant coverage'.Keys == coverage.Keys + (LoIdSet(los[..l]) - {""})
      invariant forall id | id in coverage' :: coverage'[id] == if id != "" && id in LoIdSet(los[..l]) then 0 else coverage[id]
    {
      var id := Strip(los[l].id);
      LoIdSetSnoc(los, l);
      ZeroStep(coverage, coverage', LoIdSet(los[..l]), id);
      if id != "" {
        coverage' := coverage'[id := 0];
      }
    }
    assert los[..|los|] == los;
  }

  /** Zeroing one more id keeps the counter zero on the ids seen so far and
      as it was elsewhere. */
  lemma ZeroStep(c0: map<string, int>, c: map<string, int>, seen: set<string>, id: string)
    requires c.Keys == c0.Keys + (seen - {""})
    requires forall k | k in c :: c[k] == if k != "" && k in seen then 0 else c0[k]
    ensures var c2 := if id != "" then c[id := 0] else c;
      && c2.Keys == c0.Keys + ((seen + {id}) - {""})
      && forall k | k in c2 :: c2[k] == if k != "" && k in seen + {id} then 0 else c0[k]
  {
  }

  /** `initialize_lo_coverage`: a zero counter for exactly the non-empty
      stripped LO ids of the unit's topics. */
  method InitializeLoCoverage(unit: Unit) returns (coverage: map<string, int>)
    ensures coverage.Keys == UnitLoIds(unit.topics) - {""}
    ensures forall id | id in coverage :: coverage[id] == 0
  {
    var topics := unit.topics;
    coverage := map[];
    for t := 0 to |topics|
      invariant coverage.Keys == UnitLoIds(topics[..t]) - {""}
      invariant forall id | id in coverage :: coverage[id] == 0
    {
      UnitLoIdsSnoc(topics, t);
      coverage := ZeroTopicLos(coverage, topics[t].learningObjectives);
    }
    assert topics[..|topics|] == topics;
  }

  /** `coverage.get(lo, 0)` */
  function CountOf(coverage: map<string, int>, lo: string): int {
    if lo in coverage then coverage[lo] else 0
  }

  /** The `top_n` default: half of the list, at least one. */
  function DefaultTopN(n: nat): (t: nat)
    ensures t >= 1 && (n >= 2 ==> t <= n)
  {
    if n / 2 > 1 then n / 2 else 1
  }

  /** The sort key of a `(lo, count)` pair. */
  function PairCount(p: (string, int)): int {
    p.1
  }

  /** `[(lo, coverage.get(lo, 0)) for lo in allowed_los]` sorted by count. */
  function SortedLoCounts(coverage: map<string, int>, allowed: seq<string>): (r: seq<(string, int)>)
    ensures |r| == |allowed|
    ensures multiset(r) == multiset(LoCounts(coverage, allowed))
    ensures Ascending(r, PairCount)
  {
    SortByKey(LoCounts(coverage, allowed), PairCount)
  }

  function LoCounts(coverage: map<string, int>, allowed: seq<string>): (r: seq<(string, int)>)
    ensures |r| == |allowed|
    ensures forall i | 0 <= i < |r| :: r[i] == (allowed[i], CountOf(coverage, allowed[i]))
  {
    seq(|allowed|, i requires 0 <= i < |allowed| => (allowed[i], CountOf(coverage, allowed[i])))
  }

  function Names(pairs: seq<(string, int)>): (r: seq<string>)
    ensures |r| == |pairs| && forall i | 0 <= i < |r| :: r[i] == pairs[i].0
  {
    seq(|pairs|, i requires 0 <= i < |pairs| => pairs[i].0)
  }

  /** `get_priority_los`: the least-covered allowed LOs first. */
  function GetPriorityLos(coverage: map<string, int>, allowed: seq<string>, topN: Option<int>): (r: seq<string>)
    ensures |coverage| == 0 ==> r == allowed
    ensures |coverage| != 0 ==>
      var n := if topN.Some? then topN.value else DefaultTopN(|allowed|);
      n >= 0 ==> |r| == if n <= |allowed| then n else |allowed|
  {
    if |coverage| == 0 then allowed
    else
      var n := if topN.Some? then topN.value else DefaultTopN(|allowed|);
      Names(PyPrefix(SortedLoCounts(coverage, allowed), n))
  }

  /** Each entry is an LO paired with its count. */
  predicate CountsOf(ps: seq<(string, int)>, coverage: map<string, int>) {
    forall k | 0 <= k < |ps| :: ps[k].1 == CountOf(coverage, ps[k].0)
  }

  /** The sorted list holds exactly the allowed LOs, each with its count. */
  lemma SortedLoCountsEntries(coverage: map<string, int>, allowed: seq<string>)
    ensures CountsOf(SortedLoCounts(coverage, allowed), coverage)
    ensures forall k | 0 <= k < |allowed| :: allowed[k] in Names(SortedLoCounts(coverage, allowed))
    ensures forall k | 0 <= k < |allowed| :: Names(SortedLoCounts(coverage, allowed))[k] in allowed
  {
    var pairs := LoCounts(coverage, allowed);
    var sorted := SortedLoCounts(coverage, allowed);
    var names := Names(sorted);
    forall k | 0 <= k < |sorted| ensures sorted[k].1 == CountOf(coverage, sorted[k].0) && names[k] in allowed {
      assert sorted[k] in multiset(sorted);
      var i :| 0 <= i < |pairs| && pairs[i] == sorted[k];
    }
    forall k | 0 <= k < |allowed| ensures allowed[k] in names {
      assert pairs[k] in multiset(pairs);
      var j :| 0 <= j < |sorted| && sorted[j] == pairs[k];
      assert names[j] == allowed[k];
    }
  }

  /** The result is a prefix of the whole sorted list of allowed LOs. */
  lemma PriorityLosPrefix(coverage: map<string, int>, allowed: seq<string>, topN: Option<int>)
    returns (k: nat)
    requires |coverage| != 0
    ensures k <= |allowed|
    ensures GetPriorityLos(coverage, allowed, topN) == Names(SortedLoCounts(coverage, allowed))[..k]
  {
    var n := if topN.Some? then topN.value else DefaultTopN(|allowed|);
    var sorted := SortedLoCounts(coverage, allowed);
    var taken := PyPrefix(sorted, n);
    k := |taken|;
    assert taken == sorted[..k];
  }

  /** Taking a prefix of an ascending list of LOs with their counts leaves no
      LO of the list behind with a lower count than one taken. */
  lemma PrefixLeastCovered(sorted: seq<(string, int)>, coverage: map<string, int>, k: nat)
    requires k <= |sorted|
    requires Ascending(sorted, PairCount) && CountsOf(sorted, coverage)
    ensures var r := Names(sorted)[..k];
      && (forall i, j | 0 <= i < j < |r| :: CountOf(coverage, r[i]) <= CountOf(coverage, r[j]))
      && (forall x, i | x in Names(sorted) && x !in r && 0 <= i < |r| :: CountOf(coverage, r[i]) <= CountOf(coverage, x))
  {
    var names := Names(sorted);
    var r := names[..k];
    forall i, j | 0 <= i < j < |r| ensures CountOf(coverage, r[i]) <= CountOf(coverage, r[j]) {
      assert PairCount(sorted[i]) <= PairCount(sorted[j]);
    }
    forall x, i | x in names && x !in r && 0 <= i < |r|
      ensures CountOf(coverage, r[i]) <= CountOf(coverage, x)
    {
      var j :| 0 <= j < |names| && names[j] == x;
      assert forall m | 0 <= m < k :: r[m] == names[m];
      assert j >= k;
      assert PairCount(sorted[i]) <= PairCount(sorted[j]);
    }
  }

  /** With a non-empty coverage map: the counts of the result never decrease,
      every LO returned is allowed, and no allowed LO left out has a lower
      count than one returned. */
  lemma PriorityLosLeastCovered(coverage: map<string, int>, allowed: seq<string>, topN: Option<int>)
    requires |coverage| != 0
    ensures var r := GetPriorityLos(coverage, allowed, topN);
      && (forall i, j | 0 <= i < j < |r| :: CountOf(coverage, r[i]) <= CountOf(coverage, r[j]))
      && (forall i | 0 <= i < |r| :: r[i] in allowed)
      && (forall x, i | x in allowed && x !in r && 0 <= i < |r| :: CountOf(coverage, r[i]) <= CountOf(coverage, x))
  {
    var k := PriorityLosPrefix(coverage, allowed, topN);
    var sorted := SortedLoCounts(coverage, allowed);
    SortedLoCountsEntries(coverage, allowed);
    PrefixLeastCovered(sorted, coverage, k);
    var names := Names(sorted);
    forall x | x in allowed ensures x in names {
      var m :| 0 <= m < |allowed| && allowed[m] == x;
    }
  }

  /** The allowed LOs whose count is `v`, in order. */
  function LosWithCount(los: seq<string>, coverage: map<string, int>, v: int): seq<string> {
    if los == [] then []
    else (if CountOf(coverage, los[0]) == v then [los[0]] else []) + LosWithCount(los[1..], coverage, v)
  }

  lemma {:induction false} NamesWithKey(ps: seq<(string, int)>, coverage: map<string, int>, v: int)
    requires CountsOf(ps, coverage)
    ensures Names(WithKey(ps, PairCount, v)) == LosWithCount(Names(ps), coverage, v)
  {
    if ps != [] {
      NamesWithKey(ps[1..], coverage, v);
      assert Names(ps)[1..] == Names(ps[1..]);
      var head: seq<(string, int)> := if ps[0].1 == v then [ps[0]] else [];
      NamesConcat(head, WithKey(ps[1..], PairCount, v));
    }
  }

  lemma NamesConcat(a: seq<(string, int)>, b: seq<(string, int)>)
    ensures Names(a + b) == Names(a) + Names(b)
  {
  }

  lemma PrefixWithCount(sorted: seq<(string, int)>, coverage: map<string, int>, k: nat, v: int)
    requires k <= |sorted| && CountsOf(sorted, coverage)
    ensures var got := LosWithCount(Names(sorted)[..k], coverage, v);
      var all := LosWithCount(Names(sorted), coverage, v);
      |got| <= |all| && got == all[..|got|]
  {
    var taken := sorted[..k];
    assert sorted == taken + sorted[k..];
    WithKeyConcat(taken, sorted[k..], PairCount, v);
    NamesWithKey(taken, coverage, v);
    NamesWithKey(sorted, coverage, v);
    NamesConcat(WithKey(taken, PairCount, v), WithKey(sorted[k..], PairCount, v));
    assert Names(sorted)[..k] == Names(taken);
  }

  /** The sort is stable: among the LOs returned with one count, the order is
      that of `allowed_los`, and they are the first LOs of `allowed_los` with
      that count. */
  lemma PriorityLosStable(coverage: map<string, int>, allowed: seq<string>, topN: Option<int>, v: int)
    requires |coverage| != 0
    ensures var got := LosWithCount(GetPriorityLos(coverage, allowed, topN), coverage, v);
      var all := LosWithCount(allowed, coverage, v);
      |got| <= |all| && got == all[..|got|]
  {
    var k := PriorityLosPrefix(coverage, allowed, topN);
    var pairs := LoCounts(coverage, allowed);
    var sorted := SortedLoCounts(coverage, allowed);
    SortedLoCountsEntries(coverage, allowed);
    PrefixWithCount(sorted, coverage, k, v);
    SortStable(pairs, PairCount, v);
    NamesWithKey(sorted, coverage, v);
    NamesWithKey(pairs, coverage, v);
    assert Names(pairs) == allowed;
  }
}

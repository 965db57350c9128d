/** The deterministic parts of `pdf_to_json.py`: how page images are cut
    into requests for the vision model, which pages the second structure
    pass samples and what it may fill in, and how the results of several
    chunks of one section are merged (`_merge_section_results`). */
module PdfToJson {
  import opened PyStrings
  import opened Records

  /** `MAX_IMAGES_PER_REQUEST` */
  const MaxImagesPerRequest := 16

  // ---- chunking ----

  function Concat<T>(chunks: seq<seq<T>>): seq<T> {
    if chunks == [] then [] else Concat(chunks[..|chunks| - 1]) + chunks[|chunks| - 1]
  }

  lemma ConcatSnoc<T>(chunks: seq<seq<T>>, c: seq<T>)
    ensures Concat(chunks + [c]) == Concat(chunks) + c
  {
    assert (chunks + [c])[..|chunks|] == chunks;
  }

  /** `images[i:i + 16]`, the slice clamped at the end as Python does. */
  function ChunkAt<T>(images: seq<T>, i: nat): seq<T>
    requires i <= |images|
  {
    if i + MaxImagesPerRequest <= |images| then images[i..i + MaxImagesPerRequest] else images[i..]
  }

  /** The chunking loop of `extract_section` and `extract_unit`: consecutive
      chunks of 16 pages, the last one possibly shorter, that together are
      the pages in order. */
  method ChunkPages<T>(images: seq<T>) returns (chunks: seq<seq<T>>)
    ensures Concat(chunks) == images
    ensures forall k | 0 <= k < |chunks| :: 1 <= |chunks[k]| <= MaxImagesPerRequest
    ensures forall k | 0 <= k < |chunks| - 1 :: |chunks[k]| == MaxImagesPerRequest
    ensures |chunks| == (|images| + MaxImagesPerRequest - 1) / MaxImagesPerRequest
  {
    chunks := [];
    var i := 0;
    while i < |images|
      invariant i == MaxImagesPerRequest * |chunks|
      invariant i <= |images| ==> Concat(chunks) == images[..i]
      invariant i > |images| ==> Concat(chunks) == images
      invariant |chunks| > 0 ==> MaxImagesPerRequest * (|chunks| - 1) < |images|
      invariant forall k | 0 <= k < |chunks| :: 1 <= |chunks[k]| <= MaxImagesPerRequest
      invariant forall k | 0 <= k < |chunks| - 1 :: |chunks[k]| == MaxImagesPerRequest
      invariant i < |images| && |chunks| > 0 ==> |chunks[|chunks| - 1]| == MaxImagesPerRequest
      decreases |images| - i
    {
      var chunk := ChunkAt(images, i);
      ConcatSnoc(chunks, chunk);
      if i + MaxImagesPerRequest <= |images| {
        assert images[..i] + chunk == images[..i + MaxImagesPerRequest];
      } else {
        assert images[..i] + chunk == images;
      }
      chunks := chunks + [chunk];
      i := i + MaxImagesPerRequest;
    }
    if i == |images| {
      assert images[..i] == images;
    }
  }

  // ---- the second structure pass ----

  /** `min(30, total_pages - 1)`: the first page the second pass searches. */
  function SearchStart(totalPages: nat): int {
    if 30 <= totalPages - 1 then 30 else totalPages - 1
  }

  /** `len(all_images[start:total_pages])` */
  function SearchLength(totalPages: nat): (n: nat)
    ensures n <= totalPages
    ensures totalPages > 0 ==> n >= 1
  {
    if totalPages == 0 then 0 else totalPages - SearchStart(totalPages)
  }

  /** `list(range(start, stop, step))` */
  function Range(start: int, stop: int, step: nat): (r: seq<int>)
    requires step >= 1
    decreases stop - start
  {
    if start >= stop then [] else [start] + Range(start + step, stop, step)
  }

  /** A range starts at `start`, stays below `stop` and climbs by `step`. */
  lemma {:induction false} RangeFacts(start: int, stop: int, step: nat)
    requires step >= 1
    ensures var r := Range(start, stop, step);
      && (start < stop <==> |r| >= 1)
      && (|r| >= 1 ==> r[0] == start)
      && (forall i | 0 <= i < |r| :: start <= r[i] < stop)
      && (forall i | 0 <= i < |r| - 1 :: r[i + 1] == r[i] + step)
      && (forall i, j | 0 <= i < j < |r| :: r[i] < r[j])
    decreases stop - start
  {
    if start < stop {
      RangeFacts(start + step, stop, step);
      var r := Range(start, stop, step);
      var rest := Range(start + step, stop, step);
      assert forall i | 1 <= i < |r| :: r[i] == rest[i - 1];
    }
  }

  /** `max(1, n // 15)` */
  function SampleStep(n: nat): nat {
    if n / 15 > 1 then n / 15 else 1
  }

  /** `list(range(0, n, max(1, n // 15)))[:15]`: the positions of the
      sampled search pages. */
  function SampleIndices(n: nat): seq<int> {
    var all := Range(0, n, SampleStep(n));
    if |all| <= 15 then all else all[..15]
  }

  /** At most 15 pages, strictly increasing, evenly spaced from the first
      one, all within the search range. */
  lemma SampleIndicesShape(n: nat)
    ensures var r := SampleIndices(n);
      && |r| <= 15
      && (n > 0 ==> |r| >= 1 && r[0] == 0)
      && (forall i | 0 <= i < |r| :: 0 <= r[i] < n)
      && (forall i, j | 0 <= i < j < |r| :: r[i] < r[j])
      && (forall i | 0 <= i < |r| - 1 :: r[i + 1] - r[i] == SampleStep(n))
  {
    var all := Range(0, n, SampleStep(n));
    RangeFacts(0, n, SampleStep(n));
    if |all| > 15 {
      assert forall i | 0 <= i < 15 :: SampleIndices(n)[i] == all[i];
    }
  }

  datatype PageRange = PageRange(startPage: int, endPage: int)

  /** The page map of the first pass; a section it did not find is `None`. */
  datatype Structure = Structure(
    skills: Option<PageRange>,
    bigIdeas: Option<PageRange>,
    units: seq<(string, PageRange)>,
    examSections: Option<PageRange>,
    taskVerbs: Option<PageRange>)

  /** What the second pass returns. */
  datatype Pass2Result = Pass2Result(examSections: Option<PageRange>, taskVerbs: Option<PageRange>)

  /** The second pass of `analyze_pdf_structure`: run only when the exam
      sections or the task verbs are missing and there are pages to search;
      `reply` is its parsed answer, or nothing when the call failed. */
  function Pass2(s: Structure, totalPages: nat, reply: Option<Pass2Result>): (r: Structure)
    ensures r == s.(examSections := r.examSections, taskVerbs := r.taskVerbs)
    ensures s.examSections.Some? ==> r.examSections == s.examSections
    ensures s.taskVerbs.Some? ==> r.taskVerbs == s.taskVerbs
    ensures reply.None? || SearchLength(totalPages) == 0 ==> r == s
    ensures s.examSections.None? && reply.Some? && totalPages > 0 ==> r.examSections == reply.value.examSections
    ensures s.taskVerbs.None? && reply.Some? && totalPages > 0 ==> r.taskVerbs == reply.value.taskVerbs
  {
    if (s.examSections.None? || s.taskVerbs.None?) && SearchLength(totalPages) > 0 then
      match reply
      case None => s
      case Some(found) =>
        var withSections := if found.examSections.Some? && s.examSections.None?
          then s.(examSections := found.examSections) else s;
        if found.taskVerbs.Some? && s.taskVerbs.None?
          then withSections.(taskVerbs := found.taskVerbs) else withSections
    else s
  }

  // ---- merging chunk results ----

  /** The keys of a list of records, in order. */
  function KeysOf<T>(xs: seq<T>, key: T -> string): (r: seq<string>)
    ensures |r| == |xs|
    ensures forall i | 0 <= i < |xs| :: r[i] == key(xs[i])
  {
    seq(|xs|, i requires 0 <= i < |xs| => key(xs[i]))
  }

  lemma KeysOfSnoc<T>(xs: seq<T>, x: T, key: T -> string)
    ensures KeysOf(xs + [x], key) == KeysOf(xs, key) + [key(x)]
  {
  }

  /** One record per non-empty key, the first one seen winning: the merge of
      big ideas (by id) and of task verbs (by verb). */
  function FirstByKey<T>(items: seq<T>, key: T -> string): seq<T> {
    if items == [] then []
    else
      var acc := FirstByKey(items[..|items| - 1], key);
      var x := items[|items| - 1];
      if key(x) != "" && key(x) !in KeysOf(acc, key) then acc + [x] else acc
  }

  /** The keys of the merge are non-empty and pairwise different, every item
      with a non-empty key has its key there, and each record is the first
      item with its key. */
  lemma {:induction false} FirstByKeyShape<T>(items: seq<T>, key: T -> string)
    ensures var r := FirstByKey(items, key);
      && (forall j | 0 <= j < |r| :: key(r[j]) != "")
      && (forall i, j | 0 <= i < j < |r| :: key(r[i]) != key(r[j]))
      && (forall i | 0 <= i < |items| && key(items[i]) != "" :: key(items[i]) in KeysOf(r, key))
      && (forall j | 0 <= j < |r| :: exists i | 0 <= i < |items| ::
            items[i] == r[j] && forall h | 0 <= h < i :: key(items[h]) != key(r[j]))
  {
    if items != [] {
      var init := items[..|items| - 1];
      var x := items[|items| - 1];
      FirstByKeyShape(init, key);
      var acc := FirstByKey(init, key);
      var r := FirstByKey(items, key);
      forall i | 0 <= i < |items| && key(items[i]) != "" ensures key(items[i]) in KeysOf(r, key) {
        if i < |init| {
          assert items[i] == init[i];
          assert key(init[i]) in KeysOf(acc, key);
          if r != acc { KeysOfSnoc(acc, x, key); }
        } else if r != acc {
          KeysOfSnoc(acc, x, key);
        }
      }
      forall j | 0 <= j < |r|
        ensures exists i | 0 <= i < |items| :: items[i] == r[j] && forall h | 0 <= h < i :: key(items[h]) != key(r[j])
      {
        if j < |acc| {
          var i :| 0 <= i < |init| && init[i] == acc[j] && forall h | 0 <= h < i :: key(init[h]) != key(acc[j]);
          assert items[i] == r[j];
          assert forall h | 0 <= h < i :: items[h] == init[h];
        } else {
          assert r[j] == x;
          forall h | 0 <= h < |init| ensures key(items[h]) != key(x) {
            assert items[h] == init[h];
          }
        }
      }
    }
  }

  /** Appends the incoming children whose key was not among the existing
      ones before the first append (`existing_*` is computed once). */
  function NewChildren<C>(existingKeys: set<string>, incoming: seq<C>, childKey: C -> string): seq<C> {
    if incoming == [] then []
    else
      var acc := NewChildren(existingKeys, incoming[..|incoming| - 1], childKey);
      var c := incoming[|incoming| - 1];
      if childKey(c) in existingKeys then acc else acc + [c]
  }

  /** The positions in `incoming` of the children whose key is new,
      ascending. */
  function NewPositions<C>(existingKeys: set<string>, incoming: seq<C>, childKey: C -> string): seq<int> {
    if incoming == [] then []
    else
      var acc := NewPositions(existingKeys, incoming[..|incoming| - 1], childKey);
      if childKey(incoming[|incoming| - 1]) in existingKeys then acc else acc + [|incoming| - 1]
  }

  /** The new positions are ascending, and are exactly the positions of
      `incoming` whose key is new. */
  lemma {:induction false} NewPositionsShape<C>(existingKeys: set<string>, incoming: seq<C>, childKey: C -> string)
    ensures var pos := NewPositions(existingKeys, incoming, childKey);
      && (forall k, l | 0 <= k < l < |pos| :: pos[k] < pos[l])
      && (forall i :: i in pos <==> 0 <= i < |incoming| && childKey(incoming[i]) !in existingKeys)
  {
    if incoming != [] {
      var init := incoming[..|incoming| - 1];
      NewPositionsShape(existingKeys, init, childKey);
      var pacc := NewPositions(existingKeys, init, childKey);
      var pos := NewPositions(existingKeys, incoming, childKey);
      var isNew := childKey(incoming[|init|]) !in existingKeys;
      assert pos == if isNew then pacc + [|init|] else pacc;
      forall k | 0 <= k < |pacc| ensures pacc[k] < |init| {
        assert pacc[k] in pacc;
      }
      forall i ensures i in pos <==> 0 <= i < |incoming| && childKey(incoming[i]) !in existingKeys {
        assert i in pos <==> i in pacc || (isNew && i == |init|);
        if 0 <= i < |init| {
          assert incoming[i] == init[i];
        }
      }
    }
  }

  /** Child `k` of the result is the incoming child at the `k`-th new
      position. */
  lemma {:induction false} NewChildrenAt<C>(existingKeys: set<string>, incoming: seq<C>, childKey: C -> string)
    ensures var r := NewChildren(existingKeys, incoming, childKey);
      var pos := NewPositions(existingKeys, incoming, childKey);
      && |r| == |pos|
      && (forall k | 0 <= k < |pos| :: 0 <= pos[k] < |incoming| && r[k] == incoming[pos[k]])
  {
    if incoming != [] {
      var init := incoming[..|incoming| - 1];
      NewChildrenAt(existingKeys, init, childKey);
      var pacc := NewPositions(existingKeys, init, childKey);
      forall k | 0 <= k < |pacc| ensures incoming[pacc[k]] == init[pacc[k]] { }
    }
  }

  /** `NewChildren` keeps exactly the incoming children whose key is new, in
      their order and with their repetitions: child `k` of the result is
      child `pos[k]` of `incoming`, where `pos` lists, ascending, exactly the
      positions whose key is new. */
  lemma NewChildrenExact<C>(existingKeys: set<string>, incoming: seq<C>, childKey: C -> string)
    ensures var r := NewChildren(existingKeys, incoming, childKey);
      && (forall k | 0 <= k < |r| :: childKey(r[k]) !in existingKeys)
      && (forall i | 0 <= i < |incoming| && childKey(incoming[i]) !in existingKeys ::
            exists k | 0 <= k < |r| :: r[k] == incoming[i])
    ensures var r := NewChildren(existingKeys, incoming, childKey);
      var pos := NewPositions(existingKeys, incoming, childKey);
      && |r| == |pos|
      && (forall k | 0 <= k < |pos| :: 0 <= pos[k] < |incoming| && r[k] == incoming[pos[k]])
      && (forall k, l | 0 <= k < l < |pos| :: pos[k] < pos[l])
      && (forall i :: i in pos <==> 0 <= i < |incoming| && childKey(incoming[i]) !in existingKeys)
  {
    NewPositionsShape(existingKeys, incoming, childKey);
    NewChildrenAt(existingKeys, incoming, childKey);
    var r := NewChildren(existingKeys, incoming, childKey);
    var pos := NewPositions(existingKeys, incoming, childKey);
    forall k | 0 <= k < |r| ensures childKey(r[k]) !in existingKeys {
      assert pos[k] in pos;
    }
    forall i | 0 <= i < |incoming| && childKey(incoming[i]) !in existingKeys
      ensures exists k | 0 <= k < |r| :: r[k] == incoming[i]
    {
      assert i in pos;
      var k :| 0 <= k < |pos| && pos[k] == i;
      assert r[k] == incoming[i];
    }
  }

  /** A record that nests children: a skill with its subskills, an exam
      section with its descriptions. `head` is the rest of the record. */
  datatype Entry<H, C> = Entry(head: H, children: seq<C>)

  /** The keys of a list of nesting records, in order. */
  function EntryKeys<H, C>(xs: seq<Entry<H, C>>, key: H -> string): (r: seq<string>)
    ensures |r| == |xs|
    ensures forall i | 0 <= i < |xs| :: r[i] == key(xs[i].head)
  {
    seq(|xs|, i requires 0 <= i < |xs| => key(xs[i].head))
  }

  /** The position of `k` in `keys`, or -1. */
  function IndexOf(keys: seq<string>, k: string): (r: int)
    ensures -1 <= r < |keys|
    ensures r >= 0 ==> keys[r] == k && k !in keys[..r]
    ensures r < 0 ==> k !in keys
  {
    if keys == [] then -1
    else
      var j := IndexOf(keys[..|keys| - 1], k);
      if j >= 0 then (assert keys[..|keys| - 1][..j] == keys[..j]; j)
      else if keys[|keys| - 1] == k then |keys| - 1 else -1
  }

  /** The child keys of a list of children. */
  function ChildKeysOf<C>(cs: seq<C>, childKey: C -> string): set<string> {
    set i | 0 <= i < |cs| :: childKey(cs[i])
  }

  /** One merge step: a record with a new key is added at the end; one with a
      known key extends that record's children with its new ones. */
  function MergeStep<H, C>(acc: seq<Entry<H, C>>, x: Entry<H, C>, key: H -> string, childKey: C -> string): seq<Entry<H, C>> {
    var j := IndexOf(EntryKeys(acc, key), key(x.head));
    if j < 0 then acc + [x]
    else
      var cs := acc[j].children;
      acc[j := acc[j].(children := cs + NewChildren(ChildKeysOf(cs, childKey), x.children, childKey))]
  }

  /** The merge of skills and of exam sections, in first-seen order. */
  function MergeNested<H, C>(items: seq<Entry<H, C>>, key: H -> string, childKey: C -> string): seq<Entry<H, C>> {
    if items == [] then []
    else MergeStep(MergeNested(items[..|items| - 1], key, childKey), items[|items| - 1], key, childKey)
  }

  /** A merge step keeps the keys, adding the new one at the end. */
  lemma MergeStepKeys<H, C>(acc: seq<Entry<H, C>>, x: Entry<H, C>, key: H -> string, childKey: C -> string)
    ensures var j := IndexOf(EntryKeys(acc, key), key(x.head));
      && (j < 0 ==> EntryKeys(MergeStep(acc, x, key, childKey), key) == EntryKeys(acc, key) + [key(x.head)])
      && (j >= 0 ==> EntryKeys(MergeStep(acc, x, key, childKey), key) == EntryKeys(acc, key))
  {
  }

  /** The keys of the merge are pairwise different and every item's key is
      among them. */
  lemma {:induction false} MergeNestedKeys<H, C>(items: seq<Entry<H, C>>, key: H -> string, childKey: C -> string)
    ensures var ks := EntryKeys(MergeNested(items, key, childKey), key);
      && (forall i, j | 0 <= i < j < |ks| :: ks[i] != ks[j])
      && (forall i | 0 <= i < |items| :: key(items[i].head) in ks)
  {
    if items != [] {
      var init := items[..|items| - 1];
      var x := items[|items| - 1];
      MergeNestedKeys(init, key, childKey);
      var acc := MergeNested(init, key, childKey);
      MergeStepKeys(acc, x, key, childKey);
      forall i | 0 <= i < |init| ensures items[i] == init[i] { }
    }
  }

  /** The keys in the order they are first seen, each once: the key order
      of a dictionary filled in that order. */
  function FirstSeen(ks: seq<string>): seq<string> {
    if ks == [] then []
    else
      var acc := FirstSeen(ks[..|ks| - 1]);
      if ks[|ks| - 1] in acc then acc else acc + [ks[|ks| - 1]]
  }

  /** `FirstSeen` holds exactly the keys of the list, ordered by where each
      is first seen. */
  lemma {:induction false} FirstSeenShape(ks: seq<string>)
    ensures forall x :: x in FirstSeen(ks) <==> x in ks
    ensures forall i, j | 0 <= i < j < |FirstSeen(ks)| :: 0 <= IndexOf(ks, FirstSeen(ks)[i]) < IndexOf(ks, FirstSeen(ks)[j])
  {
    if ks != [] {
      var init := ks[..|ks| - 1];
      var k := ks[|ks| - 1];
      FirstSeenShape(init);
      var acc := FirstSeen(init);
      var r := FirstSeen(ks);
      assert ks == init + [k];
      forall x | x in acc ensures IndexOf(ks, x) == IndexOf(init, x) {
        IndexOfSnoc(init, k, x);
      }
      if k !in acc {
        IndexOfSnoc(init, k, k);
        forall i, j | 0 <= i < j < |r| ensures 0 <= IndexOf(ks, r[i]) < IndexOf(ks, r[j]) {
          assert r[i] == acc[i] && r[i] in acc;
          if j < |acc| {
            assert r[j] == acc[j] && r[j] in acc;
          }
        }
      }
    }
  }

  /** The merge's records come in the order their keys are first seen, as the
      dictionary's insertion order gives them. */
  lemma {:induction false} MergeNestedOrder<H, C>(items: seq<Entry<H, C>>, key: H -> string, childKey: C -> string)
    ensures EntryKeys(MergeNested(items, key, childKey), key) == FirstSeen(EntryKeys(items, key))
  {
    if items != [] {
      var init := items[..|items| - 1];
      var x := items[|items| - 1];
      MergeNestedOrder(init, key, childKey);
      var acc := MergeNested(init, key, childKey);
      MergeStepKeys(acc, x, key, childKey);
      assert EntryKeys(items, key)[..|items| - 1] == EntryKeys(init, key);
    }
  }

  /** The record a merge step produces at position `j`. */
  lemma MergeStepAt<H, C>(acc: seq<Entry<H, C>>, x: Entry<H, C>, key: H -> string, childKey: C -> string, j: nat)
    requires j < |acc|
    ensures var r := MergeStep(acc, x, key, childKey);
      var j0 := IndexOf(EntryKeys(acc, key), key(x.head));
      && j < |r|
      && r[j].head == acc[j].head
      && (j != j0 ==> r[j] == acc[j])
      && (j == j0 ==>
            r[j].children == acc[j].children + NewChildren(ChildKeysOf(acc[j].children, childKey), x.children, childKey))
  {
  }

  /** `items[i]` is the first item with the key of `e`, `e` has its head and
      its children come first in `e`. */
  ghost predicate StartsFrom<H, C>(items: seq<Entry<H, C>>, e: Entry<H, C>, i: int, key: H -> string) {
    && 0 <= i < |items|
    && (forall h | 0 <= h < i :: key(items[h].head) != key(e.head))
    && e.head == items[i].head
    && items[i].children <= e.children
  }

  ghost predicate HasOrigin<H, C>(items: seq<Entry<H, C>>, e: Entry<H, C>, key: H -> string) {
    exists i :: StartsFrom(items, e, i, key)
  }

  /** Each record of the merge starts from the first item with its key: it
      has that item's head, and that item's children come first. */
  lemma {:induction false} MergeNestedOrigin<H, C>(items: seq<Entry<H, C>>, key: H -> string, childKey: C -> string)
    ensures forall j | 0 <= j < |MergeNested(items, key, childKey)| ::
      HasOrigin(items, MergeNested(items, key, childKey)[j], key)
  {
    if items != [] {
      var init := items[..|items| - 1];
      var x := items[|items| - 1];
      MergeNestedOrigin(init, key, childKey);
      var acc := MergeNested(init, key, childKey);
      var r := MergeNested(items, key, childKey);
      forall j | 0 <= j < |r| ensures HasOrigin(items, r[j], key) {
        if j < |acc| {
          assert MergeNested(init, key, childKey) == acc;
          assert HasOrigin(init, acc[j], key);
          var i :| StartsFrom(init, acc[j], i, key);
          MergeStepAt(acc, x, key, childKey, j);
          assert forall h | 0 <= h <= i :: items[h] == init[h];
          assert StartsFrom(items, r[j], i, key);
        } else {
          MergeNestedKeys(init, key, childKey);
          assert r[j] == x;
          forall h | 0 <= h < |init| ensures key(items[h].head) != key(x.head) {
            assert items[h] == init[h];
            assert key(init[h].head) in EntryKeys(acc, key);
          }
          assert StartsFrom(items, r[j], |init|, key);
        }
      }
    }
  }

  /** The record of `r` with the key of `y` holds every child key of `y`. */
  ghost predicate Absorbs<H, C>(r: seq<Entry<H, C>>, y: Entry<H, C>, key: H -> string, childKey: C -> string) {
    var j := IndexOf(EntryKeys(r, key), key(y.head));
    0 <= j && ChildKeysOf(y.children, childKey) <= ChildKeysOf(r[j].children, childKey)
  }

  /** Every child key of every item is in the record that took its key. */
  lemma {:induction false} MergeNestedChildren<H, C>(items: seq<Entry<H, C>>, key: H -> string, childKey: C -> string)
    ensures forall i | 0 <= i < |items| :: Absorbs(MergeNested(items, key, childKey), items[i], key, childKey)
  {
    if items != [] {
      var init := items[..|items| - 1];
      var x := items[|items| - 1];
      MergeNestedChildren(init, key, childKey);
      var acc := MergeNested(init, key, childKey);
      forall i | 0 <= i < |items| ensures Absorbs(MergeNested(items, key, childKey), items[i], key, childKey) {
        if i < |init| {
          assert items[i] == init[i];
          MergeStepChildrenOld(acc, x, key, childKey, init[i]);
        } else {
          MergeStepChildrenNew(acc, x, key, childKey);
        }
      }
    }
  }

  /** A merge step loses no child key of an earlier record. */
  lemma MergeStepChildrenOld<H, C>(acc: seq<Entry<H, C>>, x: Entry<H, C>, key: H -> string, childKey: C -> string, y: Entry<H, C>)
    requires Absorbs(acc, y, key, childKey)
    ensures Absorbs(MergeStep(acc, x, key, childKey), y, key, childKey)
  {
    var r := MergeStep(acc, x, key, childKey);
    var e := IndexOf(EntryKeys(acc, key), key(y.head));
    var j0 := IndexOf(EntryKeys(acc, key), key(x.head));
    MergeStepKeys(acc, x, key, childKey);
    assert EntryKeys(r, key)[..|acc|] == EntryKeys(acc, key);
    assert IndexOf(EntryKeys(r, key), key(y.head)) == e;
    MergeStepAt(acc, x, key, childKey, e);
    if e == j0 {
      var cs := acc[e].children;
      var grown := r[e].children;
      forall k | 0 <= k < |cs| ensures grown[k] == cs[k] { }
    }
  }

  /** After a merge step, the record with the item's key holds all the item's
      child keys. */
  lemma MergeStepChildrenNew<H, C>(acc: seq<Entry<H, C>>, x: Entry<H, C>, key: H -> string, childKey: C -> string)
    ensures Absorbs(MergeStep(acc, x, key, childKey), x, key, childKey)
  {
    var r := MergeStep(acc, x, key, childKey);
    var j0 := IndexOf(EntryKeys(acc, key), key(x.head));
    MergeStepKeys(acc, x, key, childKey);
    if j0 < 0 {
      assert EntryKeys(r, key)[..|acc|] == EntryKeys(acc, key);
      assert IndexOf(EntryKeys(r, key), key(x.head)) == |acc|;
    } else {
      MergeStepAt(acc, x, key, childKey, j0);
      var cs := acc[j0].children;
      assert r[j0].children == cs + NewChildren(ChildKeysOf(cs, childKey), x.children, childKey);
      NewChildrenCover(cs, x.children, childKey);
    }
  }

  /** Children extended with the new ones of `incoming` hold every child key
      of `incoming`. */
  lemma NewChildrenCover<C>(cs: seq<C>, incoming: seq<C>, childKey: C -> string)
    ensures ChildKeysOf(incoming, childKey) <= ChildKeysOf(cs + NewChildren(ChildKeysOf(cs, childKey), incoming, childKey), childKey)
  {
    var added := NewChildren(ChildKeysOf(cs, childKey), incoming, childKey);
    var grown := cs + added;
    NewChildrenExact(ChildKeysOf(cs, childKey), incoming, childKey);
    forall y | y in ChildKeysOf(incoming, childKey) ensures y in ChildKeysOf(grown, childKey) {
      var m :| 0 <= m < |incoming| && childKey(incoming[m]) == y;
      if y in ChildKeysOf(cs, childKey) {
        var k :| 0 <= k < |cs| && childKey(cs[k]) == y;
        assert grown[k] == cs[k];
      } else {
        var k :| 0 <= k < |added| && added[k] == incoming[m];
        assert grown[|cs| + k] == added[k];
      }
    }
  }

  // ---- the merge loops ----

  /** The dictionary loop for big ideas and task verbs: `seen` holds the keys
      of the dictionary, `r` its values in insertion order. */
  method DedupeFirst<T>(items: seq<T>, key: T -> string) returns (r: seq<T>)
    ensures r == FirstByKey(items, key)
  {
    r := [];
    var seen: set<string> := {};
    for i := 0 to |items|
      invariant r == FirstByKey(items[..i], key)
      invariant forall k :: k in seen <==> k in KeysOf(r, key)
    {
      var x := items[i];
      assert items[..i + 1][..i] == items[..i];
      if key(x) != "" && key(x) !in seen {
        KeysOfSnoc(r, x, key);
        r := r + [x];
        seen := seen + {key(x)};
      }
    }
    assert items[..|items|] == items;
  }

  /** The inner loop: appends the incoming children whose key is not in the
      snapshot `existing`. */
  method AppendNew<C>(cs: seq<C>, existing: set<string>, incoming: seq<C>, childKey: C -> string)
    returns (grown: seq<C>)
    ensures grown == cs + NewChildren(existing, incoming, childKey)
  {
    grown := cs;
    for k := 0 to |incoming|
      invariant grown == cs + NewChildren(existing, incoming[..k], childKey)
    {
      assert incoming[..k + 1][..k] == incoming[..k];
      if childKey(incoming[k]) !in existing {
        grown := grown + [incoming[k]];
      }
    }
    assert incoming[..|incoming|] == incoming;
  }

  /** The dictionary loop for skills and exam sections: `at` maps each key to
      the position of its record in `r`, whose children grow in place. */
  method MergeNestedLoop<H, C>(items: seq<Entry<H, C>>, key: H -> string, childKey: C -> string)
    returns (r: seq<Entry<H, C>>)
    ensures r == MergeNested(items, key, childKey)
  {
    r := [];
    var at: map<string, nat> := map[];
    for i := 0 to |items|
      invariant r == MergeNested(items[..i], key, childKey)
      invariant forall k | k in at :: IndexOf(EntryKeys(r, key), k) == at[k]
      invariant forall k | k !in at :: IndexOf(EntryKeys(r, key), k) < 0
    {
      var x := items[i];
      assert items[..i + 1][..i] == items[..i];
      var k := key(x.head);
      MergeStepKeys(r, x, key, childKey);
      if k !in at {
        IndexOfsAfterAdd(r, x, key);
        r := r + [x];
        at := at[k := |r| - 1];
      } else {
        var j := at[k];
        var cs := r[j].children;
        var grown := AppendNew(cs, ChildKeysOf(cs, childKey), x.children, childKey);
        r := r[j := r[j].(children := grown)];
      }
    }
    assert items[..|items|] == items;
  }

  /** Adding a record with a new key leaves every other key's position. */
  lemma IndexOfsAfterAdd<H, C>(r: seq<Entry<H, C>>, x: Entry<H, C>, key: H -> string)
    requires IndexOf(EntryKeys(r, key), key(x.head)) < 0
    ensures forall k ::
      IndexOf(EntryKeys(r + [x], key), k) == if k == key(x.head) then |r| else IndexOf(EntryKeys(r, key), k)
  {
    forall k ensures
      IndexOf(EntryKeys(r + [x], key), k) == if k == key(x.head) then |r| else IndexOf(EntryKeys(r, key), k)
    {
      assert EntryKeys(r + [x], key) == EntryKeys(r, key) + [key(x.head)];
      IndexOfSnoc(EntryKeys(r, key), key(x.head), k);
    }
  }

  lemma IndexOfSnoc(keys: seq<string>, k2: string, k: string)
    ensures IndexOf(keys, k) >= 0 ==> IndexOf(keys + [k2], k) == IndexOf(keys, k)
    ensures IndexOf(keys, k) < 0 ==> IndexOf(keys + [k2], k) == if k2 == k then |keys| else -1
  {
    assert (keys + [k2])[..|keys|] == keys;
  }

  // ---- the section merge ----

  /** What one chunk returned: each list present only when the chunk's reply
      had that key. */
  datatype ChunkResult = ChunkResult(
    skills: Option<seq<SkillCategory>>,
    bigIdeas: Option<seq<BigIdea>>,
    examSections: Option<seq<ExamSection>>,
    taskVerbs: Option<seq<TaskVerb>>)

  function SkillsOf(c: ChunkResult): Option<seq<SkillCategory>> { c.skills }
  function BigIdeasOf(c: ChunkResult): Option<seq<BigIdea>> { c.bigIdeas }
  function ExamSectionsOf(c: ChunkResult): Option<seq<ExamSection>> { c.examSections }
  function TaskVerbsOf(c: ChunkResult): Option<seq<TaskVerb>> { c.taskVerbs }

  /** The items of one kind, chunk after chunk, skipping chunks without them:
      the order in which the nested loops of the merge visit them. */
  function Gather<T>(chunks: seq<ChunkResult>, field: ChunkResult -> Option<seq<T>>): seq<T> {
    if chunks == [] then []
    else
      var last := field(chunks[|chunks| - 1]);
      Gather(chunks[..|chunks| - 1], field) + if last.Some? then last.value else []
  }

  /** Every item of every chunk is gathered. */
  lemma {:induction false} GatherMember<T>(chunks: seq<ChunkResult>, field: ChunkResult -> Option<seq<T>>, k: nat, i: nat)
    requires k < |chunks| && field(chunks[k]).Some? && i < |field(chunks[k]).value|
    ensures field(chunks[k]).value[i] in Gather(chunks, field)
  {
    var init := chunks[..|chunks| - 1];
    if k < |init| {
      assert chunks[k] == init[k];
      GatherMember(init, field, k, i);
    } else {
      var xs := field(chunks[k]).value;
      assert Gather(chunks, field)[|Gather(init, field)| + i] == xs[i];
    }
  }

  /** A skill as a nesting record: its name and description, then its
      subskills. */
  function SkillEntry(s: SkillCategory): Entry<(string, string), SubSkill> {
    Entry((s.skillName, s.skillDescription), s.subskills)
  }

  function SkillOf(e: Entry<(string, string), SubSkill>): SkillCategory {
    SkillCategory(e.head.0, e.head.1, e.children)
  }

  function SkillKey(h: (string, string)): string { h.0 }

  function SubskillKey(c: SubSkill): string { c.subskillName }

  /** An exam section as a nesting record: its id, type and timing, then its
      descriptions, each its own key. */
  function SectionEntry(e: ExamSection): Entry<(string, string, string), string> {
    Entry((e.section, e.questionType, e.timing), e.descriptions)
  }

  function SectionOf(e: Entry<(string, string, string), string>): ExamSection {
    ExamSection(e.head.0, e.head.1, e.head.2, e.children)
  }

  function SectionKey(h: (string, string, string)): string { h.0 }

  function DescriptionKey(d: string): string { d }

  function BigIdeaId(b: BigIdea): string { b.id }

  function VerbName(v: TaskVerb): string { v.verb }

  /** The skills merge of a list of skills. */
  function MergeSkills(all: seq<SkillCategory>): seq<SkillCategory> {
    var m := MergeNested(seq(|all|, i requires 0 <= i < |all| => SkillEntry(all[i])), SkillKey, SubskillKey);
    seq(|m|, j requires 0 <= j < |m| => SkillOf(m[j]))
  }

  /** The exam sections merge of a list of exam sections. */
  function MergeSections(all: seq<ExamSection>): seq<ExamSection> {
    var m := MergeNested(seq(|all|, i requires 0 <= i < |all| => SectionEntry(all[i])), SectionKey, DescriptionKey);
    seq(|m|, j requires 0 <= j < |m| => SectionOf(m[j]))
  }

  /** Skills merge: one skill per name. */
  lemma MergeSkillsDistinct(all: seq<SkillCategory>)
    ensures var r := MergeSkills(all);
      forall i, j | 0 <= i < j < |r| :: r[i].skillName != r[j].skillName
  {
    var es := seq(|all|, i requires 0 <= i < |all| => SkillEntry(all[i]));
    MergeNestedKeys(es, SkillKey, SubskillKey);
  }

  /** Skills merge: the merged skills come in the order their names are
      first seen. */
  lemma MergeSkillsOrder(all: seq<SkillCategory>)
    ensures var r := MergeSkills(all);
      seq(|r|, j requires 0 <= j < |r| => r[j].skillName) == FirstSeen(seq(|all|, i requires 0 <= i < |all| => all[i].skillName))
  {
    var es := seq(|all|, i requires 0 <= i < |all| => SkillEntry(all[i]));
    MergeNestedOrder(es, SkillKey, SubskillKey);
    assert EntryKeys(es, SkillKey) == seq(|all|, i requires 0 <= i < |all| => all[i].skillName);
  }

  /** Skills merge: every subskill name of every skill is in the merged skill
      with that name. */
  lemma MergeSkillsCover(all: seq<SkillCategory>)
    ensures var r := MergeSkills(all);
      forall i | 0 <= i < |all| :: exists j | 0 <= j < |r| ::
        r[j].skillName == all[i].skillName
        && ChildKeysOf(all[i].subskills, SubskillKey) <= ChildKeysOf(r[j].subskills, SubskillKey)
  {
    var es := seq(|all|, i requires 0 <= i < |all| => SkillEntry(all[i]));
    var m := MergeNested(es, SkillKey, SubskillKey);
    var r := MergeSkills(all);
    MergeNestedChildren(es, SkillKey, SubskillKey);
    forall i | 0 <= i < |all|
      ensures exists j | 0 <= j < |r| ::
        r[j].skillName == all[i].skillName
        && ChildKeysOf(all[i].subskills, SubskillKey) <= ChildKeysOf(r[j].subskills, SubskillKey)
    {
      assert Absorbs(m, es[i], SkillKey, SubskillKey);
      var j := IndexOf(EntryKeys(m, SkillKey), SkillKey(es[i].head));
      assert r[j] == SkillOf(m[j]);
    }
  }

  /** Skills merge: each merged skill is the first skill seen with its name,
      with that skill's description, and that skill's subskills first. */
  lemma MergeSkillsOrigin(all: seq<SkillCategory>)
    ensures var r := MergeSkills(all);
      forall j | 0 <= j < |r| :: exists i | 0 <= i < |all| ::
        && (forall h | 0 <= h < i :: all[h].skillName != r[j].skillName)
        && r[j].skillName == all[i].skillName
        && r[j].skillDescription == all[i].skillDescription
        && all[i].subskills <= r[j].subskills
  {
    var es := seq(|all|, i requires 0 <= i < |all| => SkillEntry(all[i]));
    var m := MergeNested(es, SkillKey, SubskillKey);
    var r := MergeSkills(all);
    MergeNestedOrigin(es, SkillKey, SubskillKey);
    forall j | 0 <= j < |r|
      ensures exists i | 0 <= i < |all| ::
        && (forall h | 0 <= h < i :: all[h].skillName != r[j].skillName)
        && r[j].skillName == all[i].skillName
        && r[j].skillDescription == all[i].skillDescription
        && all[i].subskills <= r[j].subskills
    {
      assert r[j] == SkillOf(m[j]);
      assert HasOrigin(es, m[j], SkillKey);
      var i :| StartsFrom(es, m[j], i, SkillKey);
      assert forall h | 0 <= h < i :: SkillKey(es[h].head) == all[h].skillName;
    }
  }

  /** Exam sections merge: one section per id. */
  lemma MergeSectionsDistinct(all: seq<ExamSection>)
    ensures var r := MergeSections(all);
      forall i, j | 0 <= i < j < |r| :: r[i].section != r[j].section
  {
    var es := seq(|all|, i requires 0 <= i < |all| => SectionEntry(all[i]));
    MergeNestedKeys(es, SectionKey, DescriptionKey);
  }

  /** Exam sections merge: the merged sections come in the order their ids
      are first seen. */
  lemma MergeSectionsOrder(all: seq<ExamSection>)
    ensures var r := MergeSections(all);
      seq(|r|, j requires 0 <= j < |r| => r[j].section) == FirstSeen(seq(|all|, i requires 0 <= i < |all| => all[i].section))
  {
    var es := seq(|all|, i requires 0 <= i < |all| => SectionEntry(all[i]));
    MergeNestedOrder(es, SectionKey, DescriptionKey);
    assert EntryKeys(es, SectionKey) == seq(|all|, i requires 0 <= i < |all| => all[i].section);
  }

  /** Descriptions are their own keys. */
  lemma DescriptionKeys(ds: seq<string>)
    ensures forall d :: d in ds <==> d in ChildKeysOf(ds, DescriptionKey)
  {
    forall d | d in ds ensures d in ChildKeysOf(ds, DescriptionKey) {
      var k :| 0 <= k < |ds| && ds[k] == d;
      assert DescriptionKey(ds[k]) == d;
    }
  }

  /** Exam sections merge: every description of every section is in the
      merged section with that id. */
  lemma MergeSectionsCover(all: seq<ExamSection>)
    ensures var r := MergeSections(all);
      forall i | 0 <= i < |all| :: exists j | 0 <= j < |r| ::
        r[j].section == all[i].section
        && forall d | d in all[i].descriptions :: d in r[j].descriptions
  {
    var es := seq(|all|, i requires 0 <= i < |all| => SectionEntry(all[i]));
    var m := MergeNested(es, SectionKey, DescriptionKey);
    var r := MergeSections(all);
    MergeNestedChildren(es, SectionKey, DescriptionKey);
    forall i | 0 <= i < |all|
      ensures exists j | 0 <= j < |r| ::
        r[j].section == all[i].section
        && forall d | d in all[i].descriptions :: d in r[j].descriptions
    {
      assert Absorbs(m, es[i], SectionKey, DescriptionKey);
      var j := IndexOf(EntryKeys(m, SectionKey), SectionKey(es[i].head));
      assert r[j] == SectionOf(m[j]);
      DescriptionKeys(all[i].descriptions);
      DescriptionKeys(r[j].descriptions);
    }
  }

  /** Exam sections merge: each merged section is the first section seen with
      its id, with that section's type and timing, and its descriptions first. */
  lemma MergeSectionsOrigin(all: seq<ExamSection>)
    ensures var r := MergeSections(all);
      forall j | 0 <= j < |r| :: exists i | 0 <= i < |all| ::
        && (forall h | 0 <= h < i :: all[h].section != r[j].section)
        && r[j].section == all[i].section
        && r[j].questionType == all[i].questionType
        && r[j].timing == all[i].timing
        && all[i].descriptions <= r[j].descriptions
  {
    var es := seq(|all|, i requires 0 <= i < |all| => SectionEntry(all[i]));
    var m := MergeNested(es, SectionKey, DescriptionKey);
    var r := MergeSections(all);
    MergeNestedOrigin(es, SectionKey, DescriptionKey);
    forall j | 0 <= j < |r|
      ensures exists i | 0 <= i < |all| ::
        && (forall h | 0 <= h < i :: all[h].section != r[j].section)
        && r[j].section == all[i].section
        && r[j].questionType == all[i].questionType
        && r[j].timing == all[i].timing
        && all[i].descriptions <= r[j].descriptions
    {
      assert r[j] == SectionOf(m[j]);
      assert HasOrigin(es, m[j], SectionKey);
      var i :| StartsFrom(es, m[j], i, SectionKey);
      assert forall h | 0 <= h < i :: SectionKey(es[h].head) == all[h].section;
    }
  }

  /** A chunk result holding only the merged list of one section. */
  function OnlySkills(xs: seq<SkillCategory>): ChunkResult { ChunkResult(Some(xs), None, None, None) }
  function OnlyBigIdeas(xs: seq<BigIdea>): ChunkResult { ChunkResult(None, Some(xs), None, None) }
  function OnlyExamSections(xs: seq<ExamSection>): ChunkResult { ChunkResult(None, None, Some(xs), None) }
  function OnlyTaskVerbs(xs: seq<TaskVerb>): ChunkResult { ChunkResult(None, None, None, Some(xs)) }

  /** `_merge_section_results`: nothing for no chunks; the merge of the
      section's lists for the four known section types; the first chunk's
      result as it is for any other. */
  method MergeSectionResults(chunks: seq<ChunkResult>, sectionType: string) returns (r: Option<ChunkResult>)
    ensures chunks == [] <==> r.None?
    ensures chunks != [] && sectionType == "skills" ==>
      r == Some(OnlySkills(MergeSkills(Gather(chunks, SkillsOf))))
    ensures chunks != [] && sectionType == "big_ideas" ==>
      r == Some(OnlyBigIdeas(FirstByKey(Gather(chunks, BigIdeasOf), BigIdeaId)))
    ensures chunks != [] && sectionType == "exam_sections" ==>
      r == Some(OnlyExamSections(MergeSections(Gather(chunks, ExamSectionsOf))))
    ensures chunks != [] && sectionType == "task_verbs" ==>
      r == Some(OnlyTaskVerbs(FirstByKey(Gather(chunks, TaskVerbsOf), VerbName)))
    ensures chunks != [] && sectionType !in ["skills", "big_ideas", "exam_sections", "task_verbs"] ==>
      r == Some(chunks[0])
  {
    if chunks == [] {
      return None;
    }
    if sectionType == "skills" {
      var all := Gather(chunks, SkillsOf);
      var m := MergeNestedLoop(seq(|all|, i requires 0 <= i < |all| => SkillEntry(all[i])), SkillKey, SubskillKey);
      r := Some(OnlySkills(seq(|m|, j requires 0 <= j < |m| => SkillOf(m[j]))));
    } else if sectionType == "big_ideas" {
      var merged := DedupeFirst(Gather(chunks, BigIdeasOf), BigIdeaId);
      r := Some(OnlyBigIdeas(merged));
    } else if sectionType == "exam_sections" {
      var all := Gather(chunks, ExamSectionsOf);
      var m := MergeNestedLoop(seq(|all|, i requires 0 <= i < |all| => SectionEntry(all[i])), SectionKey, DescriptionKey);
      r := Some(OnlyExamSections(seq(|m|, j requires 0 <= j < |m| => SectionOf(m[j]))));
    } else if sectionType == "task_verbs" {
      var merged := DedupeFirst(Gather(chunks, TaskVerbsOf), VerbName);
      r := Some(OnlyTaskVerbs(merged));
    } else {
      r := Some(chunks[0]);
    }
  }
}

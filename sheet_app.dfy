/**
 * The front-end of the title-keyed sheet: the progress counts it derives live
 * from the tree and the completion map, the blank-title guards of its three
 * creation forms, and the drop handler that turns a drag of a question into a
 * `reorderQuestions` call on the store.
 */
module SheetApp {
  import opened Wrappers
  import opened Text
  import opened Seqs
  import opened SheetModel
  import opened SheetStore
  import opened Seed
  import opened DragDrop

  // ---------------------------------------------------------------------
  // Live progress counts.
  // ---------------------------------------------------------------------

  /**
   * The counts shown in a topic's header: a loop over its subtopics adding
   * each one's question count and done count.
   */
  method TopicCounts(subs: seq<SubtopicItem>, completion: map<string, bool>) returns (total: nat, completed: nat)
    ensures total == SubtopicsTotal(subs)
    ensures completed == SubtopicsCompleted(subs, completion)
    ensures completed <= total
  {
    total, completed := 0, 0;
    for k := 0 to |subs|
      invariant total == SubtopicsTotal(subs[..k])
      invariant completed == SubtopicsCompleted(subs[..k], completion)
    {
      assert subs[..k + 1][..k] == subs[..k];
      total := total + |subs[k].questions|;
      completed := completed + CompletedIn(subs[k].questions, completion);
    }
    assert subs[..|subs|] == subs;
    SubtopicsCompletedBounded(subs, completion);
  }

  /**
   * The counts behind the overall progress line: two nested loops over every
   * subtopic of every topic.
   */
  method OverallCounts(topics: seq<TopicItem>, completion: map<string, bool>) returns (total: nat, completed: nat)
    ensures total == SheetTotal(topics)
    ensures completed == SheetCompleted(topics, completion)
    ensures completed <= total
  {
    total, completed := 0, 0;
    for a := 0 to |topics|
      invariant total == SheetTotal(topics[..a])
      invariant completed == SheetCompleted(topics[..a], completion)
    {
      assert topics[..a + 1][..a] == topics[..a];
      var subs := topics[a].subtopics;
      ghost var total0, completed0 := total, completed;
      for b := 0 to |subs|
        invariant total == total0 + SubtopicsTotal(subs[..b])
        invariant completed == completed0 + SubtopicsCompleted(subs[..b], completion)
      {
        assert subs[..b + 1][..b] == subs[..b];
        total := total + |subs[b].questions|;
        completed := completed + CompletedIn(subs[b].questions, completion);
      }
      assert subs[..|subs|] == subs;
    }
    assert topics[..|topics|] == topics;
    SheetCompletedBounded(topics, completion);
  }

  /** A subtopic's own counts: its question count and how many of its keys are set. */
  function SubtopicCounts(st: SubtopicItem, completion: map<string, bool>): (counts: (nat, nat))
    ensures counts.1 <= counts.0 == |st.questions|
  {
    (|st.questions|, CompletedIn(st.questions, completion))
  }

  /** Right after loading, the live counts agree with the counts stored in the tree. */
  lemma LiveCountsMatchStored(rs: seq<Record>, a: nat, b: nat)
    requires a < |Normalize(rs)| && b < |Normalize(rs)[a].subtopics|
    ensures var st := Normalize(rs)[a].subtopics[b];
      SubtopicCounts(st, Completion(rs)) == (st.totalCount, st.completedCount)
    ensures SubtopicsTotal(Normalize(rs)[a].subtopics) == Normalize(rs)[a].totalCount
    ensures SubtopicsCompleted(Normalize(rs)[a].subtopics, Completion(rs)) == Normalize(rs)[a].completedCount
  {
    NormalizeCounts(rs);
  }

  // ---------------------------------------------------------------------
  // The blank-title guards of the three creation forms.
  // ---------------------------------------------------------------------

  /** `const title = input.trim(); if (!title) return;`: the title a form submits, if any. */
  function SubmittedTitle(input: string): (r: Option<string>)
    ensures r.None? <==> IsBlank(input)
    ensures r.Some? ==> r.value != [] && !IsWhitespace(r.value[0]) && !IsWhitespace(r.value[|r.value| - 1])
  {
    TrimEmptyIffBlank(input);
    var u := TrimStart(input);
    var title := TrimEnd(u);
    if title == [] then None
    else
      assert title[0] == u[0];
      Some(title)
  }

  /** A submitted title is the input with white space cut from both ends only. */
  lemma SubmittedTitleShape(input: string) returns (i: nat)
    requires SubmittedTitle(input).Some?
    ensures var title := SubmittedTitle(input).value;
      && i + |title| <= |input|
      && input == input[..i] + title + input[i + |title|..]
      && IsBlank(input[..i]) && IsBlank(input[i + |title|..])
  {
    i := TrimShape(input);
  }

  /** Trimming is idempotent: a form filled with an already submitted title submits it unchanged. */
  lemma SubmittedTitleStable(input: string)
    requires SubmittedTitle(input).Some?
    ensures SubmittedTitle(SubmittedTitle(input).value) == SubmittedTitle(input)
  {
    var r := Trim(input);
    assert TrimStart(r) == r;
    assert TrimEnd(r) == r;
  }

  /**
   * Saving the new-topic form: a blank input leaves store, input and form
   * alone; otherwise the trimmed title is added, the input cleared and the
   * form closed.
   */
  method SubmitTopic(store: Store, input: string, adding: bool) returns (inputAfter: string, addingAfter: bool)
    modifies store
    ensures SubmittedTitle(input).None? ==> inputAfter == input && addingAfter == adding && unchanged(store)
    ensures SubmittedTitle(input).Some? ==>
      var title := SubmittedTitle(input).value;
      && inputAfter == "" && !addingAfter
      && store.topicsState == TopicAdded(old(store.topicsState), title)
      && store.topicCollapsed == old(store.topicCollapsed)[title := false]
      && store.completion == old(store.completion) && store.subtopicCollapsed == old(store.subtopicCollapsed)
  {
    var title := SubmittedTitle(input);
    if title.None? {
      return input, adding;
    }
    store.AddTopic(title.value);
    inputAfter, addingAfter := "", false;
  }

  /**
   * Saving the new-subtopic form of topic `t`; `addingFor` names the topic
   * whose form is open.
   */
  method SubmitSubtopic(store: Store, t: string, input: string, addingFor: Option<string>)
    returns (inputAfter: string, addingForAfter: Option<string>)
    modifies store
    ensures SubmittedTitle(input).None? ==> inputAfter == input && addingForAfter == addingFor && unchanged(store)
    ensures SubmittedTitle(input).Some? ==>
      var title := SubmittedTitle(input).value;
      && inputAfter == "" && addingForAfter.None?
      && store.topicsState == SubtopicAdded(old(store.topicsState), t, title)
      && store.subtopicCollapsed == old(store.subtopicCollapsed)[Join2(t, title) := false]
      && store.completion == old(store.completion) && store.topicCollapsed == old(store.topicCollapsed)
  {
    var title := SubmittedTitle(input);
    if title.None? {
      return input, addingFor;
    }
    store.AddSubtopic(t, title.value);
    inputAfter, addingForAfter := "", None;
  }

  /**
   * Saving the new-question form of subtopic `s` of topic `t`; `addingFor`
   * names the subtopic whose form is open.
   */
  method SubmitQuestion(store: Store, t: string, s: string, input: string, addingFor: Option<string>)
    returns (inputAfter: string, addingForAfter: Option<string>)
    modifies store
    ensures SubmittedTitle(input).None? ==> inputAfter == input && addingForAfter == addingFor && unchanged(store)
    ensures SubmittedTitle(input).Some? ==>
      var title := SubmittedTitle(input).value;
      && inputAfter == "" && addingForAfter.None?
      && store.topicsState == QuestionAdded(old(store.topicsState), t, s, title)
      && store.completion == CompletionAfterAdd(old(store.topicsState), old(store.completion), t, s)
      && store.topicCollapsed == old(store.topicCollapsed) && store.subtopicCollapsed == old(store.subtopicCollapsed)
  {
    var title := SubmittedTitle(input);
    if title.None? {
      return input, addingFor;
    }
    store.AddQuestion(t, s, title.value);
    inputAfter, addingForAfter := "", None;
  }

  // ---------------------------------------------------------------------
  // Dropping a dragged question.
  // ---------------------------------------------------------------------

  /**
   * The arguments the drop handler passes to `reorderQuestions`. The
   * subtopic is `None` when the source list's id holds no "||", where the
   * handler passes `undefined`.
   */
  datatype ReorderRequest = ReorderRequest(topic: string, subtopic: Option<string>, from: nat, to: nat)

  /** The second piece of a split id, if there is one. */
  function SecondPart(parts: seq<string>): (p: Option<string>)
    ensures p.Some? <==> |parts| >= 2
    ensures p.Some? ==> p.value == parts[1]
  {
    if |parts| >= 2 then Some(parts[1]) else None
  }

  /**
   * `onDragEnd`: nothing without a destination or when the two indices are
   * equal (the drag type is not read); otherwise the source list's id split on "||" names the topic and
   * subtopic, and the two indices are passed through.
   */
  function DropRequest(drop: DropResult): (r: Option<ReorderRequest>)
    ensures r.None? <==> drop.destination.None? || drop.source.index == drop.destination.value.index
    ensures r.Some? ==> r.value.from == drop.source.index && r.value.to == drop.destination.value.index
    ensures r.Some? ==> SplitBars(drop.source.droppableId)[0] == r.value.topic
  {
    match drop.destination
    case None => None
    case Some(dst) =>
      if drop.source.index == dst.index then None
      else
        var parts := SplitBars(drop.source.droppableId);
        Some(ReorderRequest(parts[0], SecondPart(parts), drop.source.index, dst.index))
  }

  /** The id of a subtopic's list is `topic||subtopic`; with bar-free titles the drop names exactly that pair. */
  lemma DropNamesSourceList(t: string, s: string, i: nat, dst: Location, dragType: string)
    requires NoBar(t) && NoBar(s) && i != dst.index
    ensures DropRequest(DropResult(Location(Join2(t, s), i), Some(dst), dragType)) == Some(ReorderRequest(t, Some(s), i, dst.index))
  {
    SplitJoin2(t, s);
  }

  /** Only the destination index matters: which list the question was dropped on is ignored. */
  lemma DropIgnoresDestinationList(src: Location, dst: Location, other: string, dragType: string)
    ensures DropRequest(DropResult(src, Some(dst), dragType)) == DropRequest(DropResult(src, Some(dst.(droppableId := other)), dragType))
  {
  }

  /** An id without the separator yields no subtopic, and the whole id as the topic. */
  lemma DropWithoutSeparator(drop: DropResult)
    requires NoBar(drop.source.droppableId) && DropRequest(drop).Some?
    ensures DropRequest(drop).value.topic == drop.source.droppableId
    ensures DropRequest(drop).value.subtopic == None
  {
    SplitNoBar(drop.source.droppableId);
  }

  /** The drop asks for a move the store can perform: its subtopics hold a question at the source index. */
  ghost predicate DropAllowed(topics: seq<TopicItem>, drop: DropResult) {
    match DropRequest(drop)
    case Some(ReorderRequest(t, Some(s), i, _)) => CanReorder(topics, t, s, i)
    case _ => true
  }

  /**
   * The tree after a drop. A request without a subtopic reaches the store
   * with `undefined`, which no subtopic title equals, so nothing moves.
   */
  function DropOutcome(topics: seq<TopicItem>, drop: DropResult): (r: seq<TopicItem>)
    requires DropAllowed(topics, drop)
    ensures |r| == |topics|
    ensures DropRequest(drop).None? ==> r == topics
  {
    match DropRequest(drop)
    case Some(ReorderRequest(t, Some(s), i, j)) => QuestionsReordered(topics, t, s, i, j)
    case _ => topics
  }

  /** A drop neither loses nor completes a question, and keeps the keys distinct. */
  lemma DropKeepsProgress(topics: seq<TopicItem>, c: map<string, bool>, drop: DropResult)
    requires DropAllowed(topics, drop)
    ensures SheetTotal(DropOutcome(topics, drop)) == SheetTotal(topics)
    ensures SheetCompleted(DropOutcome(topics, drop), c) == SheetCompleted(topics, c)
    ensures WellKeyed(topics) ==> WellKeyed(DropOutcome(topics, drop))
  {
    match DropRequest(drop)
    case Some(ReorderRequest(t, Some(s), i, j)) =>
      ReorderProgress(topics, c, t, s, i, j);
      if WellKeyed(topics) {
        ReorderWellKeyed(topics, t, s, i, j);
      }
    case _ =>
  }

  /** Dropping a question where it was picked up changes nothing. */
  lemma DropOnSelf(topics: seq<TopicItem>, src: Location, dragType: string)
    ensures DropOutcome(topics, DropResult(src, Some(src), dragType)) == topics
  {
  }

  /** The drop handler: forwards the request to the store when there is one. */
  method OnDragEnd(store: Store, drop: DropResult)
    requires DropAllowed(store.topicsState, drop)
    modifies store
    ensures store.topicsState == DropOutcome(old(store.topicsState), drop)
    ensures store.completion == old(store.completion)
    ensures store.topicCollapsed == old(store.topicCollapsed) && store.subtopicCollapsed == old(store.subtopicCollapsed)
  {
    var request := DropRequest(drop);
    match request
    case Some(ReorderRequest(t, Some(s), i, j)) =>
      store.ReorderQuestions(t, s, i, j);
    case _ =>
  }
}

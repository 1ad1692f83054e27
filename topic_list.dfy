/**
 * The front-end of the id-keyed sheet: the new-topic form and the drop
 * handler that routes a finished drag to one of the store's three reorders
 * by the kind of thing dragged.
 */
module TopicList {
  import opened Wrappers
  import opened Text
  import opened Seqs
  import opened IdStore
  import opened DragDrop

  // ---------------------------------------------------------------------
  // The new-topic form.
  // ---------------------------------------------------------------------

  /**
   * `if (newTopicTitle.trim()) addTopic(newTopicTitle)`: a form that is not
   * blank submits the title as typed, surrounding white space included.
   */
  function TopicToAdd(input: string): (r: Option<string>)
    ensures r.None? <==> IsBlank(input)
    ensures r.Some? ==> r.value == input
  {
    TrimEmptyIffBlank(input);
    if Trim(input) != [] then Some(input) else None
  }

  /**
   * Saving the form: a blank input leaves everything alone; otherwise the
   * topic is added, the input cleared and the form closed.
   */
  method HandleAddTopic(sheet: Sheet, input: string, showForm: bool, now: nat) returns (inputAfter: string, showAfter: bool)
    modifies sheet
    ensures IsBlank(input) ==> inputAfter == input && showAfter == showForm && unchanged(sheet)
    ensures !IsBlank(input) ==> inputAfter == "" && !showAfter && sheet.topics == TopicAdded(old(sheet.topics), input, now)
  {
    var title := TopicToAdd(input);
    if title.None? {
      return input, showForm;
    }
    sheet.AddTopic(title.value, now);
    inputAfter, showAfter := "", false;
  }

  // ---------------------------------------------------------------------
  // Routing a drop.
  // ---------------------------------------------------------------------

  /** The store call a drop turns into. */
  datatype Action =
    | ReorderTopicsAction(from: nat, to: nat)
    | ReorderSubTopicsAction(topicId: string, from: nat, to: nat)
    | ReorderQuestionsAction(topicId: string, subTopicId: string, from: nat, to: nat)

  predicate HoldsSubTopic(t: Topic, subTopicId: string) {
    exists b | 0 <= b < |t.subTopics| :: t.subTopics[b].id == subTopicId
  }

  /** `topics.find(t => t.subTopics.some(st => st.id === subTopicId))`, as an index. */
  function OwnerOf(topics: seq<Topic>, subTopicId: string): (a: Option<nat>)
    ensures a.Some? ==> a.value < |topics| && HoldsSubTopic(topics[a.value], subTopicId)
    ensures a.Some? ==> forall k | 0 <= k < a.value :: !HoldsSubTopic(topics[k], subTopicId)
    ensures a.None? ==> forall k | 0 <= k < |topics| :: !HoldsSubTopic(topics[k], subTopicId)
  {
    if topics == [] then None
    else if HoldsSubTopic(topics[0], subTopicId) then Some(0)
    else
      var rest := OwnerOf(topics[1..], subTopicId);
      if rest.None? then None else Some(rest.value + 1)
  }

  /**
   * `onDragEnd`: nothing without a destination or when the drop lands where
   * it started (same list and index); otherwise topics reorder the whole
   * list, subtopics the list named by the source, and questions the source
   * list inside the first topic that holds it, provided that topic's id is
   * not empty. Any other kind of drag does nothing.
   */
  function DragAction(topics: seq<Topic>, drop: DropResult): (r: Option<Action>)
    ensures r.Some? ==> drop.destination.Some? && drop.destination.value != drop.source
    ensures r.Some? ==> drop.dragType in {"topic", "subtopic", "question"}
    ensures r.Some? && r.value.ReorderQuestionsAction? ==>
      exists a | 0 <= a < |topics| :: topics[a].id == r.value.topicId && HoldsSubTopic(topics[a], r.value.subTopicId)
  {
    match drop.destination
    case None => None
    case Some(dst) =>
      var src := drop.source;
      if dst.droppableId == src.droppableId && dst.index == src.index then None
      else if drop.dragType == "topic" then Some(ReorderTopicsAction(src.index, dst.index))
      else if drop.dragType == "subtopic" then Some(ReorderSubTopicsAction(src.droppableId, src.index, dst.index))
      else if drop.dragType == "question" then
        match OwnerOf(topics, src.droppableId)
        case Some(a) =>
          if topics[a].id != "" then Some(ReorderQuestionsAction(topics[a].id, src.droppableId, src.index, dst.index))
          else None
        case None => None
      else None
  }

  /** Every container an action names is the source list, and every index comes from the drop. */
  lemma DragActionSource(topics: seq<Topic>, drop: DropResult)
    requires DragAction(topics, drop).Some?
    ensures var r, src, dst := DragAction(topics, drop).value, drop.source, drop.destination.value;
      && (r.ReorderTopicsAction? <==> drop.dragType == "topic")
      && (r.ReorderSubTopicsAction? <==> drop.dragType == "subtopic")
      && (r.ReorderQuestionsAction? <==> drop.dragType == "question")
      && r.from == src.index && r.to == dst.index
      && (r.ReorderSubTopicsAction? ==> r.topicId == src.droppableId)
      && (r.ReorderQuestionsAction? ==>
            && r.subTopicId == src.droppableId
            && OwnerOf(topics, src.droppableId).Some?
            && r.topicId == topics[OwnerOf(topics, src.droppableId).value].id != "")
  {
  }

  /** Which list the drop landed on matters only for telling a drop on the start position apart. */
  lemma DragIgnoresDestinationList(topics: seq<Topic>, src: Location, dst: Location, other: string, dragType: string)
    requires (dst.droppableId == src.droppableId) == (other == src.droppableId)
    ensures DragAction(topics, DropResult(src, Some(dst), dragType))
         == DragAction(topics, DropResult(src, Some(dst.(droppableId := other)), dragType))
  {
  }

  /** A question drag from a list no topic holds, or held first by a topic with an empty id, does nothing. */
  lemma DragQuestionWithoutOwner(topics: seq<Topic>, drop: DropResult)
    requires drop.dragType == "question"
    requires OwnerOf(topics, drop.source.droppableId).None?
      || topics[OwnerOf(topics, drop.source.droppableId).value].id == ""
    ensures DragAction(topics, drop).None?
  {
  }

  /** The action can be carried out: its source index exists in every list it touches. */
  predicate ActionAllowed(topics: seq<Topic>, action: Option<Action>) {
    match action
    case None => true
    case Some(ReorderTopicsAction(i, _)) => i < |topics|
    case Some(ReorderSubTopicsAction(t, i, _)) => CanReorderSubTopics(topics, t, i)
    case Some(ReorderQuestionsAction(t, s, i, _)) => CanReorderQuestions(topics, t, s, i)
  }

  /** The topic list after the store runs the action. */
  function Perform(topics: seq<Topic>, action: Option<Action>): (r: seq<Topic>)
    requires ActionAllowed(topics, action)
    ensures action.None? ==> r == topics
    ensures TreeQuestions(r) == TreeQuestions(topics)
  {
    match action
    case None => topics
    case Some(ReorderTopicsAction(i, j)) =>
      ReordersKeepQuestions(topics, "", "", i, j);
      TopicsReordered(topics, i, j)
    case Some(ReorderSubTopicsAction(t, i, j)) =>
      ReordersKeepQuestions(topics, t, "", i, j);
      SubTopicsReordered(topics, t, i, j)
    case Some(ReorderQuestionsAction(t, s, i, j)) =>
      ReordersKeepQuestions(topics, t, s, i, j);
      QuestionsReordered(topics, t, s, i, j)
  }

  /** A question drag moves the question inside the source list of the topic found to hold it. */
  lemma DragQuestionMovesSourceList(topics: seq<Topic>, drop: DropResult)
    requires DragAction(topics, drop).Some? && DragAction(topics, drop).value.ReorderQuestionsAction?
    requires ActionAllowed(topics, DragAction(topics, drop))
    ensures var a := OwnerOf(topics, drop.source.droppableId).value;
      var i, j := drop.source.index, drop.destination.value.index;
      Perform(topics, DragAction(topics, drop))[a]
        == topics[a].(subTopics := MoveQuestionsIn(topics[a].subTopics, drop.source.droppableId, i, j))
  {
    DragActionSource(topics, drop);
  }

  /** The drop handler: asks the store for the action, if any. */
  method OnDragEnd(sheet: Sheet, drop: DropResult)
    requires ActionAllowed(sheet.topics, DragAction(sheet.topics, drop))
    modifies sheet
    ensures sheet.topics == Perform(old(sheet.topics), DragAction(old(sheet.topics), drop))
  {
    var action := DragAction(sheet.topics, drop);
    match action
    case None =>
    case Some(ReorderTopicsAction(i, j)) =>
      sheet.ReorderTopics(i, j);
    case Some(ReorderSubTopicsAction(t, i, j)) =>
      sheet.ReorderSubTopics(t, i, j);
    case Some(ReorderQuestionsAction(t, s, i, j)) =>
      sheet.ReorderQuestions(t, s, i, j);
  }
}

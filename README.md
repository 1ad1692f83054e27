# Question sheet state, modelled in Dafny

The question-management system shows a sheet of practice questions grouped
as topic → subtopic → question. The sheet is built once from a flat list of
seed records, and the user can then tick questions off, collapse parts, add
parts and drag questions into a new order. The repository has two front-ends,
each with its own client-side store. This project models both stores and the
handlers that drive them.

- **The title-keyed sheet** (`question-sheet/`):
  - `sheetStore.ts` builds the tree and a completion map keyed by
    `topic||subTopic||index` strings. It holds four fields: the tree, the
    completion map and two collapse maps. Its reducers toggle flags, add
    topics, subtopics and questions, and reorder questions.
  - `App.tsx` derives progress counts live, refuses blank titles, and turns a
    drop into a `reorderQuestions` call by splitting the list id on `||`.
- **The id-keyed sheet** (`src/`):
  - `useSheetStore.ts` builds a tree whose parts carry string ids. Thirteen
    copy-on-write reducers add, rename, delete, collapse and reorder topics,
    subtopics and questions.
  - `TopicList.tsx` guards the new-topic form and routes a drop by the kind
    of thing dragged.

Modules:

- `Wrappers`: `Option`, and `Nullable`, which keeps `undefined` and `null` apart.
- `DragDrop`: the position and drop result the drag-and-drop library reports.
- `Text`:
  - white space, `trim`, ASCII `toLowerCase` and the `/\s+/g → '-'` slug;
  - decimal printing of indices;
  - `||` joining and `split("||")`.
- `Seqs`:
  - `splice` remove-then-insert as `Move`;
  - first-seen de-duplication, which is the key order of a JavaScript `Map`;
  - `filter`;
  - occurrence counts.
- `Seed`: the seed record, with the grouping both stores perform stated once
  as a specification.
- `SheetModel`, `SheetStore`, `SheetApp`: the title-keyed sheet.
- `IdStore`, `TopicList`: the id-keyed sheet.

Each loop of the source is a method with invariants. Each method is proved
equal to a specification function over the seed records or over the old
state. The properties are then proved about those functions:

- first-seen order;
- every record lands exactly once;
- the totals add up;
- keys are distinct;
- the toggles are involutions;
- add followed by delete is the identity;
- a reorder is a permutation, lands the element at the clamped end index, and
  can be undone.

Each store is a class whose fields its methods replace.

## Model

| member | source | states |
|---|---|---|
| SheetModel.NormalizeData | question-sheet/src/store/sheetStore.ts:44-94 | the loop over the records, filling the topic map, the subtopic maps and the completion record, returns exactly the grouped tree `Normalize(rs)` and completion map `Completion(rs)` |
| SheetModel.NormalizeTopicOrder | question-sheet/src/store/sheetStore.ts:51-56 | topics are pairwise distinct titles, ordered by where each title first occurs among the records |
| SheetModel.NormalizeSubtopicOrder | question-sheet/src/store/sheetStore.ts:51-57 | within a topic, subtopics are distinct titles of that topic's records, in first-seen order |
| SheetModel.NormalizeLocate | question-sheet/src/store/sheetStore.ts:59-70 | record k sits in the subtopic of its own titles, at position j = the number of earlier records with the same pair; its item has the defaulted title, difficulty and link and the key `topic\|\|subTopic\|\|j` |
| SheetModel.NormalizeTotal | question-sheet/src/store/sheetStore.ts:51-71 | the tree holds exactly as many questions as there are records |
| SheetModel.NormalizeCounts | question-sheet/src/store/sheetStore.ts:75-89 | every stored `totalCount` and `completedCount` equals the sum over its questions / subtopics under the initial completion map |
| SheetModel.CountsBounded | question-sheet/src/store/sheetStore.ts:79-88 | with accurate stored counts, no topic or subtopic has more done than total |
| SheetModel.CompletedIn | question-sheet/src/store/sheetStore.ts:79 | the number of questions whose key is set is at most the list length |
| SheetModel.CompletedInMove | question-sheet/src/store/sheetStore.ts:186-189 | moving a question inside its list keeps the done count |
| SheetModel.SubtopicsCompletedBounded | question-sheet/src/App.tsx:112-117 | done questions of a topic never exceed its questions |
| SheetModel.SheetCompletedBounded | question-sheet/src/App.tsx:33-41 | done questions of the sheet never exceed its questions |
| SheetModel.NormalizeWellKeyed | question-sheet/src/store/sheetStore.ts:59-60 | with bar-free titles, topic titles are distinct, subtopic titles are distinct within a topic, and each subtopic's keys are, in some order, exactly `t\|\|s\|\|0 .. t\|\|s\|\|n-1` |
| SheetModel.NormalizeKeysDistinct | question-sheet/src/store/sheetStore.ts:59-60 | with bar-free titles, no two questions of the tree share a key |
| SheetModel.RecordKeysDiffer | question-sheet/src/store/sheetStore.ts:59-60 | with bar-free titles, two different records get different keys |
| SheetModel.NormalizeCompletion | question-sheet/src/store/sheetStore.ts:69 | with bar-free titles, each record's key is in the completion map, true exactly when the record's `completed` is the boolean true |
| Text.TrimEmptyIffBlank | question-sheet/src/App.tsx:44-45 | the trimmed string is empty (falsy) exactly when the input is all white space |
| Text.TrimShape | question-sheet/src/App.tsx:44 | the trimmed string is a contiguous piece of the input with only white space before and after it |
| Text.DashRunsNoWhitespace | src/store/useSheetStore.ts:58 | the white-space replacement leaves a string without white space unchanged |
| Text.NatToStringInjective | question-sheet/src/store/sheetStore.ts:60 | different indices print differently |
| Text.SplitJoin2 | question-sheet/src/App.tsx:71-73 | splitting `t\|\|s` on `\|\|` gives back `[t, s]` for bar-free titles |
| Text.SplitJoin3 | question-sheet/src/store/sheetStore.ts:60 | splitting a question key gives back its topic, subtopic and index for bar-free titles |
| Text.Join3Injective | question-sheet/src/store/sheetStore.ts:60 | bar-free titles and indices are recovered from the key: equal keys mean equal parts |
| Text.Join3Collision | question-sheet/src/store/sheetStore.ts:60 | titles containing `\|` can produce the same key for different pairs |
| Seqs.Move | src/store/useSheetStore.ts:115-120 | the two splices keep the length and the multiset, put the moved element at `min(j, n-1)`, and leave the others in order |
| Seqs.MoveUnique | src/store/useSheetStore.ts:115-120 | those facts determine the result |
| Seqs.MoveSame | src/store/useSheetStore.ts:115-120 | moving onto the start index is the identity |
| Seqs.MoveBack | src/store/useSheetStore.ts:115-120 | moving back from the landing index restores the sequence |
| Seqs.Dedup | question-sheet/src/store/sheetStore.ts:55 | the key order of a `Map` filled from a sequence holds each value once and exactly the values of the sequence |
| Seqs.DedupFirstSeen | question-sheet/src/store/sheetStore.ts:55 | that key order is the order of first occurrence |
| Seqs.DedupCountsSum | question-sheet/src/store/sheetStore.ts:51-71 | the group sizes over the distinct keys add up to the input length |
| Seqs.Filter | src/store/useSheetStore.ts:108 | the result holds exactly the kept elements |
| Seqs.FilterIdempotent | src/store/useSheetStore.ts:107-109 | filtering twice is filtering once |
| Seed.GroupingTotal | question-sheet/src/store/sheetStore.ts:51-71 | grouping by topic, then by subtopic, loses and duplicates no record |
| SheetStore.Toggle | question-sheet/src/store/sheetStore.ts:106-109 | the flag under the key becomes the negation of its truthiness (missing reads false); every other key is unchanged |
| SheetStore.ToggleTwice | question-sheet/src/store/sheetStore.ts:106-122 | toggling the same key twice restores every flag as a condition reads it |
| SheetStore.TopicAdded | question-sheet/src/store/sheetStore.ts:124-131 | the old topics, then one empty topic with zero counts |
| SheetStore.SubtopicAdded | question-sheet/src/store/sheetStore.ts:133-149 | every topic with the title gets one empty subtopic at its end; other topics, and the counts, are unchanged |
| SheetStore.AddSubtopicAbsent | question-sheet/src/store/sheetStore.ts:135-136 | with no topic of that title the tree is unchanged |
| SheetStore.QuestionAdded | question-sheet/src/store/sheetStore.ts:151-176 | every matching subtopic of every matching topic gets the question keyed by its own old length, with difficulty "Unknown" and link "#"; nothing else changes, stored counts included |
| SheetStore.CompletionAfterAdd | question-sheet/src/store/sheetStore.ts:172-175 | the completion map gains `qKey := false` and is otherwise unchanged |
| SheetStore.LastKeyInMeaning | question-sheet/src/store/sheetStore.ts:158-161 | within one topic the handed-out key is "" exactly when no subtopic matches, else the key of a matching one |
| SheetStore.AddedKeyMeaning | question-sheet/src/store/sheetStore.ts:153-171 | the `qKey` written to the map is "" exactly when no (topic, subtopic) pair matches; otherwise it is the next key of a matching subtopic |
| SheetStore.AddQuestionAbsent | question-sheet/src/store/sheetStore.ts:154-159 | with no matching pair the tree is unchanged |
| SheetStore.AddQuestionTotal | question-sheet/src/store/sheetStore.ts:151-171 | the sheet grows by exactly the number of matching pairs |
| SheetStore.AddedKeyFresh | question-sheet/src/store/sheetStore.ts:160-161 | in a well-keyed tree no existing question carries the handed-out key |
| SheetStore.AddedKeyUnique | question-sheet/src/store/sheetStore.ts:153-161 | in a well-keyed tree the handed-out key is the next key of the (unique) matching subtopic |
| SheetStore.AddQuestionProgress | question-sheet/src/store/sheetStore.ts:151-176 | in a well-keyed tree the done count stays and the total grows by the matching pairs |
| SheetStore.QuestionsReordered | question-sheet/src/store/sheetStore.ts:178-193 | in every matching subtopic the question at i lands at `min(j, n-1)`, the others keep their order, the multiset is kept; nothing else changes |
| SheetStore.ReorderSame | question-sheet/src/store/sheetStore.ts:178-193 | reordering onto the same index is the identity |
| SheetStore.ReorderBack | question-sheet/src/store/sheetStore.ts:178-193 | dragging back from the landing index restores the tree |
| SheetStore.MoveQuestionsInProgress | question-sheet/src/store/sheetStore.ts:184-190 | moving questions inside a topic's subtopics keeps its total and done counts |
| SheetStore.ReorderProgress | question-sheet/src/store/sheetStore.ts:178-193 | a reorder keeps the sheet's total and done counts |
| SheetStore.SubtopicAddedProgress | question-sheet/src/store/sheetStore.ts:133-149 | adding a subtopic keeps the sheet's total and done counts |
| SheetStore.TopicAddedWellKeyed | question-sheet/src/store/sheetStore.ts:124-131 | a fresh bar-free topic title keeps the tree well keyed |
| SheetStore.SubtopicAddedWellKeyed | question-sheet/src/store/sheetStore.ts:133-149 | a bar-free subtopic title new in its topic keeps the tree well keyed |
| SheetStore.QuestionAddedWellKeyed | question-sheet/src/store/sheetStore.ts:151-176 | adding a question keeps the tree well keyed |
| SheetStore.ReorderWellKeyed | question-sheet/src/store/sheetStore.ts:178-193 | a reorder keeps the tree well keyed |
| SheetStore.Store.constructor | question-sheet/src/store/sheetStore.ts:96-104 | the store starts from the normalized seed, its completion map, and empty collapse maps; it holds one question per record, its stored counts are accurate, and with bar-free titles its keys are distinct |
| SheetStore.Store.ToggleTopicCollapse | question-sheet/src/store/sheetStore.ts:106-109 | only `topicCollapsed` changes, by `Toggle` |
| SheetStore.Store.ToggleSubtopicCollapse | question-sheet/src/store/sheetStore.ts:111-117 | only `subtopicCollapsed` changes, by `Toggle` |
| SheetStore.Store.ToggleQuestionComplete | question-sheet/src/store/sheetStore.ts:119-122 | only `completion` changes, by `Toggle` |
| SheetStore.Store.AddTopic | question-sheet/src/store/sheetStore.ts:124-131 | the tree becomes `TopicAdded`, `topicCollapsed[title]` becomes false, the rest is unchanged |
| SheetStore.Store.AddSubtopic | question-sheet/src/store/sheetStore.ts:133-149 | the tree becomes `SubtopicAdded`, `subtopicCollapsed[t\|\|s]` becomes false even when no topic matches, the rest is unchanged |
| SheetStore.Store.AddQuestion | question-sheet/src/store/sheetStore.ts:151-176 | the tree becomes `QuestionAdded` and the completion map `CompletionAfterAdd` computed on the old tree; the collapse maps are unchanged |
| SheetStore.Store.ReorderQuestions | question-sheet/src/store/sheetStore.ts:178-193 | the tree becomes `QuestionsReordered`; the three maps are unchanged |
| SheetApp.OverallCounts | question-sheet/src/App.tsx:33-41 | the nested loops compute the sheet's question count and done count, and done ≤ total |
| SheetApp.TopicCounts | question-sheet/src/App.tsx:110-117 | the loop over a topic's subtopics computes its question and done counts, and done ≤ total |
| SheetApp.SubtopicCounts | question-sheet/src/App.tsx:125-126 | a subtopic's total is its question count and its done count is at most that |
| SheetApp.LiveCountsMatchStored | question-sheet/src/store/sheetStore.ts:75-89 | right after loading, the live counts equal the counts stored in the tree |
| SheetApp.SubmittedTitle | question-sheet/src/App.tsx:44-45 | a title is submitted exactly when the input is not all white space; it is non-empty with no white space at either end |
| SheetApp.SubmittedTitleShape | question-sheet/src/App.tsx:44 | the submitted title is the input with white space cut from both ends only |
| SheetApp.SubmittedTitleStable | question-sheet/src/App.tsx:44 | submitting an already submitted title gives it back unchanged |
| SheetApp.SubmitTopic | question-sheet/src/App.tsx:43-49 | a blank input changes nothing; otherwise the trimmed title is added, the input is cleared and the form closed |
| SheetApp.SubmitSubtopic | question-sheet/src/App.tsx:51-57 | a blank input changes nothing; otherwise the trimmed subtopic is added under the topic, the input is cleared and the form closed |
| SheetApp.SubmitQuestion | question-sheet/src/App.tsx:59-65 | a blank input changes nothing; otherwise the trimmed question is added under the pair, the input is cleared and the form closed |
| SheetApp.SecondPart | question-sheet/src/App.tsx:73 | `parts[1]` is present exactly when the split gave two or more pieces |
| SheetApp.DropRequest | question-sheet/src/App.tsx:67-75 | no request without a destination or when the two indices are equal; otherwise the indices pass through and the topic is the first piece of the source id |
| SheetApp.DropNamesSourceList | question-sheet/src/App.tsx:70-74 | a drop from list `t\|\|s` with bar-free titles asks to reorder exactly `(t, s)` |
| SheetApp.DropIgnoresDestinationList | question-sheet/src/App.tsx:69-74 | the list the question is dropped on does not change the request |
| SheetApp.DropWithoutSeparator | question-sheet/src/App.tsx:71-73 | an id without `\|\|` gives the whole id as topic and no subtopic |
| SheetApp.DropOutcome | question-sheet/src/App.tsx:74 | the tree after the store call is the same length, unchanged when there is no request |
| SheetApp.DropKeepsProgress | question-sheet/src/App.tsx:67-75 | a drop keeps the total and done counts and keeps the tree well keyed |
| SheetApp.DropOnSelf | question-sheet/src/App.tsx:69 | dropping where it started changes nothing |
| SheetApp.OnDragEnd | question-sheet/src/App.tsx:67-75 | the tree becomes `DropOutcome`; the completion and collapse maps are unchanged |
| IdStore.FindSubTopic | src/store/useSheetStore.ts:66 | the index found holds the title, `===`-equal (an `undefined` title matches only subtopics titled `undefined`, a `null` one only those titled `null`), and no earlier one does; none means no subtopic has it |
| IdStore.FindSubTopicSpec | src/store/useSheetStore.ts:66-68 | on the tree built so far, the search by title (a string, `undefined` or `null`) fails exactly when no earlier record of the topic had that title, and otherwise finds its position |
| IdStore.FileRecord | src/store/useSheetStore.ts:65-83 | finding or opening the subtopic and pushing the question turns the topic built from the earlier records into the topic built with this record |
| IdStore.FileInto | src/store/useSheetStore.ts:56-84 | creating the record's topic when absent and filing the record keeps the map's key order equal to the topic titles in first-seen order and each entry equal to its topic as the records so far define it |
| IdStore.NormalizeData | src/store/useSheetStore.ts:49-87 | the pass fails (the source throws) exactly when some record has no topic; otherwise it returns exactly `NormalizeSpec(rs)`: one topic per title in first-seen order, with slug ids, `collapsed: false`, and subtopics and questions grouped in input order, an `undefined` and a `null` subtopic title each forming a subtopic of their own, titled `undefined` and `null` |
| IdStore.NormalizeDistinctTitles | src/store/useSheetStore.ts:56-75 | topics have distinct titles in first-seen order, and so do the subtopics of a topic |
| IdStore.NormalizeLocate | src/store/useSheetStore.ts:52-84 | every record's question sits in the topic of its title, in the subtopic whose title is the record's own subtopic title (a string, `undefined` or `null`) and whose id is `subtopic-<topic>-<subtopic>` slugged, the subtopic printed as `undefined` or `null` when absent |
| IdStore.NormalizeTotal | src/store/useSheetStore.ts:49-87 | the tree holds exactly as many questions as there are records |
| IdStore.TopicQuestionsSpec | src/store/useSheetStore.ts:65-83 | a seeded topic holds as many questions as its subtopic groups of records |
| IdStore.TopicIdCaseCollision | src/store/useSheetStore.ts:58 | titles that differ only in case get the same topic id |
| IdStore.TopicAdded | src/store/useSheetStore.ts:94-101 | the old topics, then one empty expanded topic with id `topic-<now>` |
| IdStore.TopicUpdated | src/store/useSheetStore.ts:103-105 | exactly the topics with the id are renamed; ids, children and flags are kept |
| IdStore.TopicDeleted | src/store/useSheetStore.ts:107-109 | the result holds exactly the topics without the id |
| IdStore.CollapseToggled | src/store/useSheetStore.ts:111-113 | topics with the id get an explicit flag negating whether they were collapsed (a missing flag reads expanded); others are unchanged |
| IdStore.TopicsReordered | src/store/useSheetStore.ts:115-120 | the topic at i lands at `min(j, n-1)`, the others keep their order, the multiset is kept |
| IdStore.TopicAddDelete | src/store/useSheetStore.ts:94-109 | deleting a topic just added under a fresh id restores the list |
| IdStore.TopicDeleteTwice | src/store/useSheetStore.ts:107-109 | deleting twice is deleting once |
| IdStore.TopicUpdateTwice | src/store/useSheetStore.ts:103-105 | renaming twice to the same title is renaming once |
| IdStore.CollapseTwice | src/store/useSheetStore.ts:111-113 | toggling twice restores whether each topic is collapsed, and restores an explicit flag exactly |
| IdStore.TopicsReorderInverse | src/store/useSheetStore.ts:115-120 | same index is the identity; dragging back restores the order |
| IdStore.SubTopicAdded | src/store/useSheetStore.ts:122-131 | every topic with the id gets an empty subtopic `subtopic-<now>` at its end; others are unchanged |
| IdStore.SubTopicUpdated | src/store/useSheetStore.ts:133-138 | inside topics with the id, exactly the subtopics with the id are renamed |
| IdStore.SubTopicDeleted | src/store/useSheetStore.ts:140-145 | inside topics with the id, the subtopics left are exactly those without the id |
| IdStore.SubTopicsReordered | src/store/useSheetStore.ts:147-155 | inside topics with the id the subtopic at i lands at `min(j, n-1)` and the multiset is kept |
| IdStore.SubTopicParentAbsent | src/store/useSheetStore.ts:122-145 | add, rename and delete under a topic id no topic holds change nothing |
| IdStore.SubTopicAddDelete | src/store/useSheetStore.ts:122-145 | deleting a subtopic just added under a fresh id restores the tree |
| IdStore.SubTopicsReorderSame | src/store/useSheetStore.ts:147-155 | reordering onto the same index is the identity |
| IdStore.Minted | src/store/useSheetStore.ts:162 | the new question is the given one under the id `q-<now>` |
| IdStore.Merge | src/store/useSheetStore.ts:172 | a field the patch sets wins; a field it leaves out keeps the old value |
| IdStore.MergeLaws | src/store/useSheetStore.ts:172 | merging the same patch twice is merging it once; the empty patch is the identity |
| IdStore.QuestionAdded | src/store/useSheetStore.ts:157-165 | every matching subtopic of every matching topic gets the minted question at its end; nothing else changes |
| IdStore.QuestionUpdated | src/store/useSheetStore.ts:167-175 | exactly the matching questions become `Merge(q, patch)`; nothing else changes |
| IdStore.QuestionDeleted | src/store/useSheetStore.ts:177-185 | in matching subtopics, the questions left are exactly those without the id |
| IdStore.MoveQuestionsIn | src/store/useSheetStore.ts:192-198 | in subtopics with the id the question at i lands at `min(j, n-1)` and the multiset is kept; others are unchanged |
| IdStore.QuestionsReordered | src/store/useSheetStore.ts:187-201 | the move happens in matching subtopics of matching topics only |
| IdStore.QuestionAddDelete | src/store/useSheetStore.ts:157-185 | deleting a question just added under a fresh id restores the tree |
| IdStore.QuestionUpdateTwice | src/store/useSheetStore.ts:167-175 | updating twice with the same patch is updating once, for every patch: one that changes the id leaves nothing for the second update to match |
| IdStore.QuestionsReorderSame | src/store/useSheetStore.ts:187-201 | reordering onto the same index is the identity |
| IdStore.TreeQuestionsMove | src/store/useSheetStore.ts:115-120 | reordering topics keeps the number of questions |
| IdStore.SubTopicsReorderKeepsQuestions | src/store/useSheetStore.ts:147-155 | reordering subtopics keeps the number of questions |
| IdStore.QuestionsReorderKeepsQuestions | src/store/useSheetStore.ts:187-201 | reordering questions keeps the number of questions |
| IdStore.ReordersKeepQuestions | src/store/useSheetStore.ts:115-201 | none of the three reorders changes the number of questions |
| IdStore.Sheet.constructor | src/store/useSheetStore.ts:92 | for a seed whose records all have a topic, the store starts from `NormalizeSpec(rs)` and holds one question per record |
| IdStore.Sheet.AddTopic | src/store/useSheetStore.ts:94-101 | the topics become `TopicAdded` |
| IdStore.Sheet.UpdateTopic | src/store/useSheetStore.ts:103-105 | the topics become `TopicUpdated` |
| IdStore.Sheet.DeleteTopic | src/store/useSheetStore.ts:107-109 | the topics become `TopicDeleted` |
| IdStore.Sheet.ToggleTopicCollapse | src/store/useSheetStore.ts:111-113 | the topics become `CollapseToggled` |
| IdStore.Sheet.ReorderTopics | src/store/useSheetStore.ts:115-120 | the topics become `TopicsReordered` |
| IdStore.Sheet.AddSubTopic | src/store/useSheetStore.ts:122-131 | the topics become `SubTopicAdded` |
| IdStore.Sheet.UpdateSubTopic | src/store/useSheetStore.ts:133-138 | the topics become `SubTopicUpdated` |
| IdStore.Sheet.DeleteSubTopic | src/store/useSheetStore.ts:140-145 | the topics become `SubTopicDeleted` |
| IdStore.Sheet.ReorderSubTopics | src/store/useSheetStore.ts:147-155 | the topics become `SubTopicsReordered` |
| IdStore.Sheet.AddQuestion | src/store/useSheetStore.ts:157-165 | the topics become `QuestionAdded` |
| IdStore.Sheet.UpdateQuestion | src/store/useSheetStore.ts:167-175 | the topics become `QuestionUpdated` |
| IdStore.Sheet.DeleteQuestion | src/store/useSheetStore.ts:177-185 | the topics become `QuestionDeleted` |
| IdStore.Sheet.ReorderQuestions | src/store/useSheetStore.ts:187-201 | the topics become `QuestionsReordered` |
| TopicList.TopicToAdd | src/components/TopicList.tsx:29 | a topic is added exactly when the input is not all white space, with the input as typed (untrimmed) |
| TopicList.HandleAddTopic | src/components/TopicList.tsx:28-34 | a blank input changes nothing; otherwise the untrimmed title is added, the input cleared and the form closed |
| TopicList.OwnerOf | src/components/TopicList.tsx:47 | the index found is the first topic holding a subtopic with the id; none means no topic holds one |
| TopicList.DragAction | src/components/TopicList.tsx:36-52 | an action needs a destination other than the start position and a known drag type; a question action names a topic that holds the source list |
| TopicList.DragActionSource | src/components/TopicList.tsx:42-50 | the action kind follows the drag type, the indices come from the drop, subtopic reorders name the source list, question reorders name the source list and the first topic holding it, whose id is non-empty |
| TopicList.DragIgnoresDestinationList | src/components/TopicList.tsx:40-49 | the destination list matters only in telling a drop onto the start position apart |
| TopicList.DragQuestionWithoutOwner | src/components/TopicList.tsx:47-48 | a question drag from a list no topic holds, or whose first holder has an empty id, does nothing |
| TopicList.Perform | src/components/TopicList.tsx:42-50 | no action leaves the tree unchanged, and every action keeps the number of questions |
| TopicList.DragQuestionMovesSourceList | src/components/TopicList.tsx:46-50 | a question drag moves the question inside the source list of the first topic holding it |
| TopicList.OnDragEnd | src/components/TopicList.tsx:36-52 | the topics become `Perform` of the routed action |

## Left out

- The React components and their rendering, `ProgressLine` (floating-point percentages), styling and the drag-and-drop library are not modelled; a drop is given as its source, destination and kind.
- SheetApp.SubmitTopic, SheetApp.SubmitSubtopic, SheetApp.SubmitQuestion: the title-keyed front-end reaches the store through `sheetApi.ts`, which waits 300 ms before each call; the model makes the store call at once, so updates interleaving with the delay are not captured.
- The `deleteTopic`, `deleteSubtopic` and `deleteQuestion` calls of `sheetApi.ts` name store actions `sheetStore.ts` does not define, so there is nothing to model behind them.
- `renameTopic`, `renameSubtopic` and `renameQuestion`, which `App.tsx` imports from `sheetApi.ts`, are not exported there, so no store call sits behind them and there is nothing to model.
- The backend, authentication, `persist` (local storage) and the JSON import are left out; the seed is a parameter `rs: seq<Record>`.
- `Date.now()` is the parameter `now`; distinct calls are not assumed to give distinct values, so the add-then-delete lemmas require the minted id to be fresh.
- `toLowerCase` maps only ASCII `A`–`Z`, and white space is the common code points of JavaScript's `trim` and `\s`; no other Unicode handling is modelled.
- An out-of-range source index makes `splice` insert `undefined`; the reorders instead require the source index to exist in every list they touch (`CanReorder`, `CanReorderSubTopics`, `CanReorderQuestions`, `startIndex < |topics|`), while the destination index is unconstrained.
- IdStore.Sheet.constructor requires every record to carry a topic (`TopicsPresent`): the store is created at module load, and for any other seed `topicTitle.toLowerCase()` throws there, so no store exists; `IdStore.NormalizeData` returns `None` for such a seed.
- The topic and the question fields (`title`, `resource`, the nested difficulty and link) keep `undefined` and `null` as one `None`. An absent topic throws or falls back through `??` alike, and a question field copied into the tree does not record which of the two it held. Neither store compares these fields with `===`. Only the subtopic, which `useSheetStore.ts:66` compares that way, keeps the two apart.
- IdStore.Merge: a patch key present with the value `undefined` is not distinguished from an absent key.
- SheetApp.OnDragEnd: when the list id has no `||` the source passes `undefined` as the subtopic; no subtopic title equals it, so the model reorders nothing in that case.
- SheetModel.NormalizeKeysDistinct, SheetModel.NormalizeWellKeyed, SheetModel.RecordKeysDiffer and SheetModel.NormalizeCompletion hold only for titles without `|`; `Text.Join3Collision` shows two different pairs sharing a key otherwise, and then a later record's flag overwrites an earlier one's in the completion map.
- SheetStore.Toggle and SheetStore.Store.ToggleTopicCollapse read a missing key as false. In the source's plain-object maps, a topic titled after an `Object.prototype` member (`constructor`, `toString`, `valueOf`, `hasOwnProperty`, …) reads as collapsed before any toggle, so its first toggle writes false there and true in the model. Such titles are not modelled. Completion and subtopic keys contain `||`, so they are unaffected.
- SheetStore.TopicAddedWellKeyed and SheetStore.SubtopicAddedWellKeyed are proved only for new bar-free titles; the source checks neither, and a repeated title duplicates keys.
- IdStore.TopicIdCaseCollision: ids derived from titles collide for titles differing only in case or white-space runs, and the reducers then act on every topic with the shared id, as the source's `map` does.

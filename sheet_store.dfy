/**
 * The title-keyed store (question-sheet/src/store/sheetStore.ts): its
 * reducers as functions from the old state to the new, and the store itself as
 * a class whose four fields the reducers replace.
 */
module SheetStore {
  import opened Text
  import opened Seqs
  import opened Seed
  import opened SheetModel

  // ---------------------------------------------------------------------
  // Flags: `{ ...m, [key]: !m[key] }`
  // ---------------------------------------------------------------------

  /** Flips the flag under `k`; an absent flag reads as false, so it becomes true. */
  function Toggle(m: map<string, bool>, k: string): (r: map<string, bool>)
    ensures k in r && r[k] == !IsSet(m, k)
    ensures forall k' | k' != k :: (k' in r <==> k' in m) && (k' in m ==> r[k'] == m[k'])
  {
    m[k := !IsSet(m, k)]
  }

  /** Toggling twice restores every flag as a condition reads it. */
  lemma ToggleTwice(m: map<string, bool>, k: string)
    ensures forall k' :: IsSet(Toggle(Toggle(m, k), k), k') == IsSet(m, k')
  {
  }

  // ---------------------------------------------------------------------
  // Tree reducers.
  // ---------------------------------------------------------------------

  /** `addTopic`: a new empty topic at the end. */
  function TopicAdded(topics: seq<TopicItem>, title: string): (r: seq<TopicItem>)
    ensures |r| == |topics| + 1 && r[..|topics|] == topics
    ensures r[|topics|] == TopicItem(title, [], 0, 0)
  {
    topics + [TopicItem(title, [], 0, 0)]
  }

  function AppendSubtopic(t: TopicItem, s: string): TopicItem {
    t.(subtopics := t.subtopics + [SubtopicItem(s, [], 0, 0)])
  }

  /** `addSubtopic`: an empty subtopic appended to every topic titled `t`; the others stay. */
  function SubtopicAdded(topics: seq<TopicItem>, t: string, s: string): (r: seq<TopicItem>)
    ensures |r| == |topics|
    ensures forall a | 0 <= a < |topics| && topics[a].title != t :: r[a] == topics[a]
    ensures forall a | 0 <= a < |topics| && topics[a].title == t ::
      && r[a].title == t
      && r[a].completedCount == topics[a].completedCount && r[a].totalCount == topics[a].totalCount
      && |r[a].subtopics| == |topics[a].subtopics| + 1
      && r[a].subtopics[..|topics[a].subtopics|] == topics[a].subtopics
      && r[a].subtopics[|topics[a].subtopics|] == SubtopicItem(s, [], 0, 0)
  {
    seq(|topics|, a requires 0 <= a < |topics| =>
      if topics[a].title != t then topics[a] else AppendSubtopic(topics[a], s))
  }

  /** The question `addQuestion` appends to a subtopic holding `n` questions. */
  function NewQuestion(t: string, s: string, title: string, n: nat): QuestionItem {
    QuestionItem(title, "Unknown", "#", QuestionKey(t, s, n))
  }

  function AppendQuestion(st: SubtopicItem, t: string, title: string): SubtopicItem {
    st.(questions := st.questions + [NewQuestion(t, st.title, title, |st.questions|)])
  }

  function AddQuestionTo(subs: seq<SubtopicItem>, t: string, s: string, title: string): (r: seq<SubtopicItem>)
    ensures |r| == |subs|
  {
    seq(|subs|, b requires 0 <= b < |subs| =>
      if subs[b].title != s then subs[b] else AppendQuestion(subs[b], t, title))
  }

  /**
   * `addQuestion`: every subtopic titled `s` of every topic titled `t` gets a
   * new question keyed by its own length; the stored counts are left as they
   * were.
   */
  function QuestionAdded(topics: seq<TopicItem>, t: string, s: string, title: string): (r: seq<TopicItem>)
    ensures |r| == |topics|
    ensures forall a | 0 <= a < |topics| && topics[a].title != t :: r[a] == topics[a]
    ensures forall a | 0 <= a < |topics| && topics[a].title == t ::
      var subs, subs' := topics[a].subtopics, r[a].subtopics;
      && r[a].title == t
      && r[a].completedCount == topics[a].completedCount && r[a].totalCount == topics[a].totalCount
      && |subs'| == |subs|
      && (forall b | 0 <= b < |subs| && subs[b].title != s :: subs'[b] == subs[b])
      && (forall b | 0 <= b < |subs| && subs[b].title == s ::
            && subs'[b].title == s
            && subs'[b].completedCount == subs[b].completedCount && subs'[b].totalCount == subs[b].totalCount
            && subs'[b].questions == subs[b].questions + [QuestionItem(title, "Unknown", "#", QuestionKey(t, s, |subs[b].questions|))])
  {
    seq(|topics|, a requires 0 <= a < |topics| =>
      if topics[a].title != t then topics[a]
      else topics[a].(subtopics := AddQuestionTo(topics[a].subtopics, t, s, title)))
  }

  /** Whether some subtopic titled `s` sits in a topic titled `t`. */
  predicate HasPair(topics: seq<TopicItem>, t: string, s: string) {
    exists a, b | 0 <= a < |topics| && 0 <= b < |topics[a].subtopics| ::
      topics[a].title == t && topics[a].subtopics[b].title == s
  }

  /** The key the last matching subtopic hands out, or "" when none matches. */
  function LastKeyIn(subs: seq<SubtopicItem>, t: string, s: string): string {
    if subs == [] then ""
    else
      var st := subs[|subs| - 1];
      if st.title == s then QuestionKey(t, s, |st.questions|) else LastKeyIn(subs[..|subs| - 1], t, s)
  }

  /**
   * The `qKey` `addQuestion` writes into the completion map: assigned once per
   * matching subtopic in document order, so the last match wins, and left as
   * "" when nothing matches.
   */
  function AddedKey(topics: seq<TopicItem>, t: string, s: string): string {
    if topics == [] then ""
    else
      var last := topics[|topics| - 1];
      var k := if last.title == t then LastKeyIn(last.subtopics, t, s) else "";
      if k != "" then k else AddedKey(topics[..|topics| - 1], t, s)
  }

  /** The completion map after `addQuestion`. */
  function CompletionAfterAdd(topics: seq<TopicItem>, c: map<string, bool>, t: string, s: string): (r: map<string, bool>)
    ensures AddedKey(topics, t, s) in r && !r[AddedKey(topics, t, s)]
    ensures forall k | k != AddedKey(topics, t, s) :: (k in r <==> k in c) && (k in c ==> r[k] == c[k])
  {
    c[AddedKey(topics, t, s) := false]
  }

  lemma {:induction false} LastKeyInMeaning(subs: seq<SubtopicItem>, t: string, s: string)
    ensures LastKeyIn(subs, t, s) == "" <==> forall b | 0 <= b < |subs| :: subs[b].title != s
    ensures LastKeyIn(subs, t, s) != "" ==> exists b | 0 <= b < |subs| ::
      subs[b].title == s && LastKeyIn(subs, t, s) == QuestionKey(t, s, |subs[b].questions|)
  {
    if subs != [] {
      var n := |subs| - 1;
      LastKeyInMeaning(subs[..n], t, s);
      if subs[n].title != s {
        assert forall b | 0 <= b < n :: subs[..n][b] == subs[b];
      }
    }
  }

  /**
   * The key is "" exactly when no subtopic matches; otherwise it is the key
   * `t||s||n` of a matching subtopic holding `n` questions.
   */
  lemma {:induction false} AddedKeyMeaning(topics: seq<TopicItem>, t: string, s: string)
    ensures AddedKey(topics, t, s) == "" <==> !HasPair(topics, t, s)
    ensures AddedKey(topics, t, s) != "" ==> exists a, b | 0 <= a < |topics| && 0 <= b < |topics[a].subtopics| ::
      && topics[a].title == t && topics[a].subtopics[b].title == s
      && AddedKey(topics, t, s) == QuestionKey(t, s, |topics[a].subtopics[b].questions|)
  {
    if topics != [] {
      var n := |topics| - 1;
      var init := topics[..n];
      AddedKeyMeaning(init, t, s);
      LastKeyInMeaning(topics[n].subtopics, t, s);
      if HasPair(init, t, s) {
        var a, b :| 0 <= a < |init| && 0 <= b < |init[a].subtopics| && init[a].title == t && init[a].subtopics[b].title == s;
        assert topics[a] == init[a];
      }
      if AddedKey(topics, t, s) != "" && AddedKey(init, t, s) == AddedKey(topics, t, s) {
        var a, b :| 0 <= a < |init| && 0 <= b < |init[a].subtopics| && init[a].title == t && init[a].subtopics[b].title == s
          && AddedKey(init, t, s) == QuestionKey(t, s, |init[a].subtopics[b].questions|);
        assert topics[a] == init[a];
      }
    }
  }

  function MoveQuestionsIn(subs: seq<SubtopicItem>, s: string, i: nat, j: nat): (r: seq<SubtopicItem>)
    requires forall b | 0 <= b < |subs| && subs[b].title == s :: i < |subs[b].questions|
    ensures |r| == |subs|
  {
    seq(|subs|, b requires 0 <= b < |subs| =>
      if subs[b].title != s then subs[b] else subs[b].(questions := Move(subs[b].questions, i, j)))
  }

  /** Every subtopic `reorderQuestions` touches holds a question at the source index. */
  ghost predicate CanReorder(topics: seq<TopicItem>, t: string, s: string, i: nat) {
    forall a, b | 0 <= a < |topics| && 0 <= b < |topics[a].subtopics| ::
      topics[a].title == t && topics[a].subtopics[b].title == s ==> i < |topics[a].subtopics[b].questions|
  }

  /**
   * `reorderQuestions`: in every subtopic titled `s` of every topic titled `t`
   * the question at `i` moves to `j` (an index past the end appends); the
   * rest of the tree is unchanged.
   */
  function QuestionsReordered(topics: seq<TopicItem>, t: string, s: string, i: nat, j: nat): (r: seq<TopicItem>)
    requires CanReorder(topics, t, s, i)
    ensures |r| == |topics|
    ensures forall a | 0 <= a < |topics| && topics[a].title != t :: r[a] == topics[a]
    ensures forall a | 0 <= a < |topics| && topics[a].title == t ::
      var subs, subs' := topics[a].subtopics, r[a].subtopics;
      && r[a].title == t
      && r[a].completedCount == topics[a].completedCount && r[a].totalCount == topics[a].totalCount
      && |subs'| == |subs|
      && (forall b | 0 <= b < |subs| && subs[b].title != s :: subs'[b] == subs[b])
      && (forall b | 0 <= b < |subs| && subs[b].title == s ::
            var qs, qs' := subs[b].questions, subs'[b].questions;
            && subs'[b].title == s
            && subs'[b].completedCount == subs[b].completedCount && subs'[b].totalCount == subs[b].totalCount
            && |qs'| == |qs| && multiset(qs') == multiset(qs)
            && qs'[Landing(|qs|, j)] == qs[i]
            && RemoveAt(qs', Landing(|qs|, j)) == RemoveAt(qs, i))
  {
    seq(|topics|, a requires 0 <= a < |topics| =>
      if topics[a].title != t then topics[a]
      else topics[a].(subtopics := MoveQuestionsIn(topics[a].subtopics, s, i, j)))
  }

  // ---------------------------------------------------------------------
  // What the reducers keep.
  // ---------------------------------------------------------------------

  /** Reordering onto the same index changes nothing. */
  lemma ReorderSame(topics: seq<TopicItem>, t: string, s: string, i: nat)
    requires CanReorder(topics, t, s, i)
    ensures QuestionsReordered(topics, t, s, i, i) == topics
  {
    var r := QuestionsReordered(topics, t, s, i, i);
    forall a | 0 <= a < |topics| ensures r[a] == topics[a] {
      if topics[a].title == t {
        var subs := topics[a].subtopics;
        forall b | 0 <= b < |subs| && subs[b].title == s ensures Move(subs[b].questions, i, i) == subs[b].questions {
          MoveSame(subs[b].questions, i);
        }
        assert r[a].subtopics == subs;
      }
    }
  }

  /** Dragging a question back from where it landed restores the tree. */
  lemma ReorderBack(topics: seq<TopicItem>, t: string, s: string, i: nat, j: nat, n: nat)
    requires CanReorder(topics, t, s, i) && n > 0
    requires forall a, b | 0 <= a < |topics| && 0 <= b < |topics[a].subtopics| ::
      topics[a].title == t && topics[a].subtopics[b].title == s ==> |topics[a].subtopics[b].questions| == n
    ensures CanReorder(QuestionsReordered(topics, t, s, i, j), t, s, Landing(n, j))
    ensures QuestionsReordered(QuestionsReordered(topics, t, s, i, j), t, s, Landing(n, j), i) == topics
  {
    var r := QuestionsReordered(topics, t, s, i, j);
    var back := QuestionsReordered(r, t, s, Landing(n, j), i);
    forall a | 0 <= a < |topics| ensures back[a] == topics[a] {
      if topics[a].title == t {
        var subs := topics[a].subtopics;
        forall b | 0 <= b < |subs| && subs[b].title == s
          ensures Move(Move(subs[b].questions, i, j), Landing(n, j), i) == subs[b].questions
        {
          MoveBack(subs[b].questions, i, j);
        }
        assert back[a].subtopics == subs;
      }
    }
  }

  /** The matching (topic, subtopic) pairs: how many questions `addQuestion` adds. */
  function PairCount(topics: seq<TopicItem>, t: string, s: string): nat {
    if topics == [] then 0
    else
      var last := topics[|topics| - 1];
      PairCount(topics[..|topics| - 1], t, s) + (if last.title == t then SubCount(last.subtopics, s) else 0)
  }

  function SubCount(subs: seq<SubtopicItem>, s: string): nat {
    if subs == [] then 0 else SubCount(subs[..|subs| - 1], s) + (if subs[|subs| - 1].title == s then 1 else 0)
  }

  lemma {:induction false} AddQuestionToTotal(subs: seq<SubtopicItem>, t: string, s: string, title: string)
    ensures SubtopicsTotal(AddQuestionTo(subs, t, s, title)) == SubtopicsTotal(subs) + SubCount(subs, s)
  {
    if subs != [] {
      var n := |subs| - 1;
      assert AddQuestionTo(subs, t, s, title)[..n] == AddQuestionTo(subs[..n], t, s, title);
      AddQuestionToTotal(subs[..n], t, s, title);
    }
  }

  /** `addQuestion` adds one question per matching subtopic and no more. */
  lemma {:induction false} AddQuestionTotal(topics: seq<TopicItem>, t: string, s: string, title: string)
    ensures SheetTotal(QuestionAdded(topics, t, s, title)) == SheetTotal(topics) + PairCount(topics, t, s)
  {
    if topics != [] {
      var n := |topics| - 1;
      assert QuestionAdded(topics, t, s, title)[..n] == QuestionAdded(topics[..n], t, s, title);
      AddQuestionTotal(topics[..n], t, s, title);
      AddQuestionToTotal(topics[n].subtopics, t, s, title);
    }
  }

  /** Without a matching pair `addQuestion` leaves the tree as it is. */
  lemma AddQuestionAbsent(topics: seq<TopicItem>, t: string, s: string, title: string)
    requires !HasPair(topics, t, s)
    ensures QuestionAdded(topics, t, s, title) == topics
  {
    var r := QuestionAdded(topics, t, s, title);
    forall a | 0 <= a < |topics| ensures r[a] == topics[a] {
      if topics[a].title == t {
        assert r[a].subtopics == topics[a].subtopics;
      }
    }
  }

  /** Without a topic titled `t`, `addSubtopic` leaves the tree as it is. */
  lemma AddSubtopicAbsent(topics: seq<TopicItem>, t: string, s: string)
    requires forall a | 0 <= a < |topics| :: topics[a].title != t
    ensures SubtopicAdded(topics, t, s) == topics
  {
  }

  /** A key no question of the list carries. */
  lemma {:induction false} CompletedInFresh(qs: seq<QuestionItem>, c: map<string, bool>, k: string, v: bool)
    requires forall j | 0 <= j < |qs| :: qs[j].key != k
    ensures CompletedIn(qs, c[k := v]) == CompletedIn(qs, c)
  {
    if qs != [] {
      CompletedInFresh(qs[..|qs| - 1], c, k, v);
    }
  }

  lemma {:induction false} SubtopicsCompletedFresh(subs: seq<SubtopicItem>, c: map<string, bool>, k: string, v: bool)
    requires forall b, j | 0 <= b < |subs| && 0 <= j < |subs[b].questions| :: subs[b].questions[j].key != k
    ensures SubtopicsCompleted(subs, c[k := v]) == SubtopicsCompleted(subs, c)
  {
    if subs != [] {
      var n := |subs| - 1;
      SubtopicsCompletedFresh(subs[..n], c, k, v);
      CompletedInFresh(subs[n].questions, c, k, v);
    }
  }

  /** Writing a key no question carries leaves every count of the sheet as it was. */
  lemma {:induction false} SheetCompletedFresh(topics: seq<TopicItem>, c: map<string, bool>, k: string, v: bool)
    requires forall a: nat, b: nat, j: nat | ValidPos(topics, a, b, j) :: KeyAt(topics, a, b, j) != k
    ensures SheetCompleted(topics, c[k := v]) == SheetCompleted(topics, c)
  {
    if topics != [] {
      var n := |topics| - 1;
      forall a: nat, b: nat, j: nat | ValidPos(topics[..n], a, b, j) ensures KeyAt(topics[..n], a, b, j) != k {
        assert ValidPos(topics, a, b, j);
      }
      SheetCompletedFresh(topics[..n], c, k, v);
      forall b, j | 0 <= b < |topics[n].subtopics| && 0 <= j < |topics[n].subtopics[b].questions|
        ensures topics[n].subtopics[b].questions[j].key != k
      {
        assert ValidPos(topics, n, b, j);
      }
      SubtopicsCompletedFresh(topics[n].subtopics, c, k, v);
    }
  }

  lemma {:induction false} AddQuestionToCompleted(subs: seq<SubtopicItem>, c: map<string, bool>, t: string, s: string, title: string)
    requires forall b | 0 <= b < |subs| && subs[b].title == s :: !IsSet(c, QuestionKey(t, s, |subs[b].questions|))
    ensures SubtopicsCompleted(AddQuestionTo(subs, t, s, title), c) == SubtopicsCompleted(subs, c)
  {
    if subs != [] {
      var n := |subs| - 1;
      assert AddQuestionTo(subs, t, s, title)[..n] == AddQuestionTo(subs[..n], t, s, title);
      AddQuestionToCompleted(subs[..n], c, t, s, title);
      if subs[n].title == s {
        CompletedInAppend(subs[n].questions, [NewQuestion(t, s, title, |subs[n].questions|)], c);
      }
    }
  }

  lemma {:induction false} AddQuestionCompletedSame(topics: seq<TopicItem>, c: map<string, bool>, t: string, s: string, title: string)
    requires forall a, b | 0 <= a < |topics| && 0 <= b < |topics[a].subtopics| ::
      topics[a].title == t && topics[a].subtopics[b].title == s ==> !IsSet(c, QuestionKey(t, s, |topics[a].subtopics[b].questions|))
    ensures SheetCompleted(QuestionAdded(topics, t, s, title), c) == SheetCompleted(topics, c)
  {
    if topics != [] {
      var n := |topics| - 1;
      assert QuestionAdded(topics, t, s, title)[..n] == QuestionAdded(topics[..n], t, s, title);
      forall a, b | 0 <= a < n && 0 <= b < |topics[..n][a].subtopics|
        ensures topics[..n][a].title == t && topics[..n][a].subtopics[b].title == s ==>
          !IsSet(c, QuestionKey(t, s, |topics[..n][a].subtopics[b].questions|))
      {
        assert topics[..n][a] == topics[a];
      }
      AddQuestionCompletedSame(topics[..n], c, t, s, title);
      if topics[n].title == t {
        AddQuestionToCompleted(topics[n].subtopics, c, t, s, title);
      }
    }
  }

  /** In a well-keyed tree the key `addQuestion` hands out is carried by no question yet. */
  lemma AddedKeyFresh(topics: seq<TopicItem>, t: string, s: string)
    requires WellKeyed(topics)
    ensures forall a: nat, b: nat, j: nat | ValidPos(topics, a, b, j) :: KeyAt(topics, a, b, j) != AddedKey(topics, t, s)
  {
    var k := AddedKey(topics, t, s);
    AddedKeyMeaning(topics, t, s);
    forall a: nat, b: nat, j: nat | ValidPos(topics, a, b, j) ensures KeyAt(topics, a, b, j) != k {
      var m := KeyShape(topics, a, b, j);
      if k != "" && KeyAt(topics, a, b, j) == k {
        var a', b' :| 0 <= a' < |topics| && 0 <= b' < |topics[a'].subtopics|
          && topics[a'].title == t && topics[a'].subtopics[b'].title == s
          && k == QuestionKey(t, s, |topics[a'].subtopics[b'].questions|);
        Join3Injective(topics[a].title, topics[a].subtopics[b].title, m, t, s, |topics[a'].subtopics[b'].questions|);
        assert false;
      }
    }
  }

  /** In a well-keyed tree at most one subtopic matches, and its next key is the one handed out. */
  lemma AddedKeyUnique(topics: seq<TopicItem>, t: string, s: string, a: nat, b: nat)
    requires WellKeyed(topics)
    requires a < |topics| && b < |topics[a].subtopics| && topics[a].title == t && topics[a].subtopics[b].title == s
    ensures AddedKey(topics, t, s) == QuestionKey(t, s, |topics[a].subtopics[b].questions|)
  {
    AddedKeyMeaning(topics, t, s);
    var a', b' :| 0 <= a' < |topics| && 0 <= b' < |topics[a'].subtopics|
      && topics[a'].title == t && topics[a'].subtopics[b'].title == s
      && AddedKey(topics, t, s) == QuestionKey(t, s, |topics[a'].subtopics[b'].questions|);
    assert !(a < a') && !(a' < a);
    var subs := topics[a].subtopics;
    assert SubtopicsWellKeyed(t, subs);
    assert !(b < b') && !(b' < b);
  }

  /**
   * In a well-keyed tree `addQuestion` hands out a key no existing question
   * carries, so the new question starts not done and every other question
   * keeps its state: the done count stays, the total grows by the number of
   * matching subtopics.
   */
  lemma AddQuestionProgress(topics: seq<TopicItem>, c: map<string, bool>, t: string, s: string, title: string)
    requires WellKeyed(topics)
    ensures var r, c' := QuestionAdded(topics, t, s, title), CompletionAfterAdd(topics, c, t, s);
      && SheetTotal(r) == SheetTotal(topics) + PairCount(topics, t, s)
      && SheetCompleted(r, c') == SheetCompleted(topics, c)
  {
    var k := AddedKey(topics, t, s);
    var c' := c[k := false];
    AddQuestionTotal(topics, t, s, title);
    AddedKeyFresh(topics, t, s);
    SheetCompletedFresh(topics, c, k, false);
    forall a, b | 0 <= a < |topics| && 0 <= b < |topics[a].subtopics| && topics[a].title == t && topics[a].subtopics[b].title == s
      ensures !IsSet(c', QuestionKey(t, s, |topics[a].subtopics[b].questions|))
    {
      AddedKeyUnique(topics, t, s, a, b);
    }
    AddQuestionCompletedSame(topics, c', t, s, title);
  }

  lemma {:induction false} MoveQuestionsInProgress(subs: seq<SubtopicItem>, c: map<string, bool>, s: string, i: nat, j: nat)
    requires forall b | 0 <= b < |subs| && subs[b].title == s :: i < |subs[b].questions|
    ensures SubtopicsTotal(MoveQuestionsIn(subs, s, i, j)) == SubtopicsTotal(subs)
    ensures SubtopicsCompleted(MoveQuestionsIn(subs, s, i, j), c) == SubtopicsCompleted(subs, c)
  {
    if subs != [] {
      var n := |subs| - 1;
      assert MoveQuestionsIn(subs, s, i, j)[..n] == MoveQuestionsIn(subs[..n], s, i, j);
      MoveQuestionsInProgress(subs[..n], c, s, i, j);
      if subs[n].title == s {
        CompletedInMove(subs[n].questions, i, j, c);
      }
    }
  }

  /** Reordering a sheet is reordering all but its last topic, then the last one. */
  lemma ReorderLast(topics: seq<TopicItem>, t: string, s: string, i: nat, j: nat)
    requires CanReorder(topics, t, s, i) && topics != []
    ensures var n := |topics| - 1;
      && CanReorder(topics[..n], t, s, i)
      && QuestionsReordered(topics, t, s, i, j)[..n] == QuestionsReordered(topics[..n], t, s, i, j)
      && (topics[n].title != t ==> QuestionsReordered(topics, t, s, i, j)[n] == topics[n])
      && (topics[n].title == t ==> QuestionsReordered(topics, t, s, i, j)[n].subtopics == MoveQuestionsIn(topics[n].subtopics, s, i, j))
  {
    var n := |topics| - 1;
    assert CanReorder(topics[..n], t, s, i) by {
      forall a, b | 0 <= a < n && 0 <= b < |topics[..n][a].subtopics|
        ensures topics[..n][a].title == t && topics[..n][a].subtopics[b].title == s ==> i < |topics[..n][a].subtopics[b].questions|
      {
        assert topics[..n][a] == topics[a];
      }
    }
  }

  /** Reordering neither adds, drops nor completes a question. */
  lemma {:induction false} ReorderProgress(topics: seq<TopicItem>, c: map<string, bool>, t: string, s: string, i: nat, j: nat)
    requires CanReorder(topics, t, s, i)
    ensures SheetTotal(QuestionsReordered(topics, t, s, i, j)) == SheetTotal(topics)
    ensures SheetCompleted(QuestionsReordered(topics, t, s, i, j), c) == SheetCompleted(topics, c)
  {
    if topics != [] {
      var n := |topics| - 1;
      ReorderLast(topics, t, s, i, j);
      ReorderProgress(topics[..n], c, t, s, i, j);
      if topics[n].title == t {
        MoveQuestionsInProgress(topics[n].subtopics, c, s, i, j);
      }
    }
  }

  lemma {:induction false} SubtopicAddedProgress(topics: seq<TopicItem>, c: map<string, bool>, t: string, s: string)
    ensures SheetTotal(SubtopicAdded(topics, t, s)) == SheetTotal(topics)
    ensures SheetCompleted(SubtopicAdded(topics, t, s), c) == SheetCompleted(topics, c)
  {
    if topics != [] {
      var n := |topics| - 1;
      assert SubtopicAdded(topics, t, s)[..n] == SubtopicAdded(topics[..n], t, s);
      SubtopicAddedProgress(topics[..n], c, t, s);
      var subs := topics[n].subtopics;
      assert (subs + [SubtopicItem(s, [], 0, 0)])[..|subs|] == subs;
    }
  }

  // ---------------------------------------------------------------------
  // The reducers keep the tree well keyed.
  // ---------------------------------------------------------------------

  /** A fresh bar-free topic title keeps the tree well keyed. */
  lemma TopicAddedWellKeyed(topics: seq<TopicItem>, title: string)
    requires WellKeyed(topics) && NoBar(title)
    requires forall a | 0 <= a < |topics| :: topics[a].title != title
    ensures WellKeyed(TopicAdded(topics, title))
  {
  }

  /** A bar-free subtopic title that is new in its topic keeps the tree well keyed. */
  lemma SubtopicAddedWellKeyed(topics: seq<TopicItem>, t: string, s: string)
    requires WellKeyed(topics) && NoBar(s)
    requires forall a, b | 0 <= a < |topics| && 0 <= b < |topics[a].subtopics| ::
      topics[a].title == t ==> topics[a].subtopics[b].title != s
    ensures WellKeyed(SubtopicAdded(topics, t, s))
  {
    var r := SubtopicAdded(topics, t, s);
    forall a | 0 <= a < |topics| ensures SubtopicsWellKeyed(r[a].title, r[a].subtopics) {
      if topics[a].title == t {
        var subs := topics[a].subtopics;
        assert SubtopicsWellKeyed(t, subs);
        assert r[a].subtopics == subs + [SubtopicItem(s, [], 0, 0)];
      }
    }
  }

  lemma KeysSnoc(qs: seq<QuestionItem>, q: QuestionItem)
    ensures Keys(qs + [q]) == Keys(qs) + [q.key]
  {
  }

  /** Adding a question keeps the tree well keyed, whatever the titles. */
  lemma QuestionAddedWellKeyed(topics: seq<TopicItem>, t: string, s: string, title: string)
    requires WellKeyed(topics)
    ensures WellKeyed(QuestionAdded(topics, t, s, title))
  {
    var r := QuestionAdded(topics, t, s, title);
    forall a | 0 <= a < |topics| ensures SubtopicsWellKeyed(r[a].title, r[a].subtopics) {
      if topics[a].title == t {
        var subs := topics[a].subtopics;
        assert SubtopicsWellKeyed(t, subs);
        forall b | 0 <= b < |subs| && subs[b].title == s
          ensures multiset(Keys(r[a].subtopics[b].questions)) == multiset(KeyRange(t, s, |r[a].subtopics[b].questions|))
        {
          var qs := subs[b].questions;
          KeysSnoc(qs, NewQuestion(t, s, title, |qs|));
          assert KeyRange(t, s, |qs| + 1) == KeyRange(t, s, |qs|) + [QuestionKey(t, s, |qs|)];
        }
      }
    }
  }

  lemma KeysMove(qs: seq<QuestionItem>, i: nat, j: nat)
    requires i < |qs|
    ensures multiset(Keys(Move(qs, i, j))) == multiset(Keys(qs))
  {
    var m := Move(qs, i, j);
    var p := Landing(|qs|, j);
    KeysRemoveAt(m, p);
    KeysRemoveAt(qs, i);
    MoveUnique(Keys(qs), i, j, Keys(m));
  }

  lemma KeysRemoveAt(qs: seq<QuestionItem>, i: nat)
    requires i < |qs|
    ensures RemoveAt(Keys(qs), i) == Keys(RemoveAt(qs, i))
  {
    var x, y := RemoveAt(Keys(qs), i), Keys(RemoveAt(qs, i));
    forall k | 0 <= k < |x| ensures x[k] == y[k] {
      if k < i {
        assert x[k] == Keys(qs)[k];
      } else {
        assert x[k] == Keys(qs)[k + 1];
      }
    }
  }

  /** Reordering keeps the tree well keyed. */
  lemma ReorderWellKeyed(topics: seq<TopicItem>, t: string, s: string, i: nat, j: nat)
    requires WellKeyed(topics) && CanReorder(topics, t, s, i)
    ensures WellKeyed(QuestionsReordered(topics, t, s, i, j))
  {
    var r := QuestionsReordered(topics, t, s, i, j);
    forall a | 0 <= a < |topics| ensures SubtopicsWellKeyed(r[a].title, r[a].subtopics) {
      if topics[a].title == t {
        var subs := topics[a].subtopics;
        assert SubtopicsWellKeyed(t, subs);
        forall b | 0 <= b < |subs| && subs[b].title == s
          ensures multiset(Keys(r[a].subtopics[b].questions)) == multiset(KeyRange(t, s, |r[a].subtopics[b].questions|))
        {
          KeysMove(subs[b].questions, i, j);
        }
      }
    }
  }

  // ---------------------------------------------------------------------
  // The store.
  // ---------------------------------------------------------------------

  /** The store's state; each method replaces the fields its reducer returns. */
  class Store {
    var topicsState: seq<TopicItem>
    var completion: map<string, bool>
    var topicCollapsed: map<string, bool>
    var subtopicCollapsed: map<string, bool>

    /** The store as created: the normalized seed, nothing collapsed. */
    constructor (rs: seq<Record>)
      ensures topicsState == Normalize(rs) && completion == Completion(rs)
      ensures topicCollapsed == map[] && subtopicCollapsed == map[]
      ensures SheetTotal(topicsState) == |rs| && CountsAccurate(topicsState, completion)
      ensures BarFree(rs) ==> WellKeyed(topicsState) && KeysDistinct(topicsState)
    {
      var topics, c := NormalizeData(rs);
      NormalizeTotal(rs);
      NormalizeCounts(rs);
      if BarFree(rs) {
        NormalizeWellKeyed(rs);
        NormalizeKeysDistinct(rs);
      }
      topicsState, completion := topics, c;
      topicCollapsed := map[];
      subtopicCollapsed := map[];
    }

    method ToggleTopicCollapse(key: string)
      modifies this
      ensures topicCollapsed == Toggle(old(topicCollapsed), key)
      ensures topicsState == old(topicsState) && completion == old(completion)
      ensures subtopicCollapsed == old(subtopicCollapsed)
    {
      topicCollapsed := Toggle(topicCollapsed, key);
    }

    method ToggleSubtopicCollapse(key: string)
      modifies this
      ensures subtopicCollapsed == Toggle(old(subtopicCollapsed), key)
      ensures topicsState == old(topicsState) && completion == old(completion)
      ensures topicCollapsed == old(topicCollapsed)
    {
      subtopicCollapsed := Toggle(subtopicCollapsed, key);
    }

    method ToggleQuestionComplete(key: string)
      modifies this
      ensures completion == Toggle(old(completion), key)
      ensures topicsState == old(topicsState)
      ensures topicCollapsed == old(topicCollapsed) && subtopicCollapsed == old(subtopicCollapsed)
    {
      completion := Toggle(completion, key);
    }

    method AddTopic(title: string)
      modifies this
      ensures topicsState == TopicAdded(old(topicsState), title)
      ensures topicCollapsed == old(topicCollapsed)[title := false]
      ensures completion == old(completion) && subtopicCollapsed == old(subtopicCollapsed)
    {
      topicsState := TopicAdded(topicsState, title);
      topicCollapsed := topicCollapsed[title := false];
    }

    /** The collapse flag under `t||s` is written even when no topic is titled `t`. */
    method AddSubtopic(t: string, s: string)
      modifies this
      ensures topicsState == SubtopicAdded(old(topicsState), t, s)
      ensures subtopicCollapsed == old(subtopicCollapsed)[Join2(t, s) := false]
      ensures completion == old(completion) && topicCollapsed == old(topicCollapsed)
    {
      topicsState := SubtopicAdded(topicsState, t, s);
      subtopicCollapsed := subtopicCollapsed[Join2(t, s) := false];
    }

    method AddQuestion(t: string, s: string, title: string)
      modifies this
      ensures topicsState == QuestionAdded(old(topicsState), t, s, title)
      ensures completion == CompletionAfterAdd(old(topicsState), old(completion), t, s)
      ensures topicCollapsed == old(topicCollapsed) && subtopicCollapsed == old(subtopicCollapsed)
    {
      completion := CompletionAfterAdd(topicsState, completion, t, s);
      topicsState := QuestionAdded(topicsState, t, s, title);
    }

    method ReorderQuestions(t: string, s: string, i: nat, j: nat)
      requires CanReorder(topicsState, t, s, i)
      modifies this
      ensures topicsState == QuestionsReordered(old(topicsState), t, s, i, j)
      ensures completion == old(completion)
      ensures topicCollapsed == old(topicCollapsed) && subtopicCollapsed == old(subtopicCollapsed)
    {
      topicsState := QuestionsReordered(topicsState, t, s, i, j);
    }
  }
}

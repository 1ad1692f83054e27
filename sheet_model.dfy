/**
 * The title-keyed sheet (question-sheet/src/store/sheetStore.ts): its tree
 * types, the `topic||subTopic||index` question keys, the completion map, the
 * progress sums, and `normalizeData`, which builds the initial tree and
 * completion map from the seed records.
 */
module SheetModel {
  import opened Wrappers
  import opened Text
  import opened Seqs
  import opened Seed

  datatype QuestionItem = QuestionItem(title: string, difficulty: string, link: string, key: string)

  datatype SubtopicItem = SubtopicItem(title: string, questions: seq<QuestionItem>, completedCount: nat, totalCount: nat)

  datatype TopicItem = TopicItem(title: string, subtopics: seq<SubtopicItem>, completedCount: nat, totalCount: nat)

  /** The key of the `j`-th question of subtopic `s` of topic `t`. */
  function QuestionKey(t: string, s: string, j: nat): string {
    Join3(t, s, NatToString(j))
  }

  /** `m[k]` used as a condition: an absent key reads as false. */
  predicate IsSet(m: map<string, bool>, k: string) {
    k in m && m[k]
  }

  /** `q.title ?? q.questionId?.name ?? "Untitled"` */
  function ItemTitle(r: Record): string {
    match r.title
    case Some(x) => x
    case None => if r.questionId.Some? then r.questionId.value.name.GetOr("Untitled") else "Untitled"
  }

  /** `q.questionId?.difficulty ?? "Unknown"` */
  function ItemDifficulty(r: Record): string {
    if r.questionId.Some? then r.questionId.value.difficulty.GetOr("Unknown") else "Unknown"
  }

  /** `q.questionId?.problemUrl ?? q.resource ?? "#"` */
  function ItemLink(r: Record): string {
    if r.questionId.Some? && r.questionId.value.problemUrl.Some? then r.questionId.value.problemUrl.value
    else r.resource.GetOr("#")
  }

  function MakeItem(r: Record, key: string): QuestionItem {
    QuestionItem(ItemTitle(r), ItemDifficulty(r), ItemLink(r), key)
  }

  // ---------------------------------------------------------------------
  // Progress sums: a question is done when its key is set in the completion map.
  // ---------------------------------------------------------------------

  /** The number of questions whose key is set. */
  function CompletedIn(qs: seq<QuestionItem>, c: map<string, bool>): (n: nat)
    ensures n <= |qs|
  {
    if qs == [] then 0
    else CompletedIn(qs[..|qs| - 1], c) + (if IsSet(c, qs[|qs| - 1].key) then 1 else 0)
  }

  lemma {:induction false} CompletedInAppend(a: seq<QuestionItem>, b: seq<QuestionItem>, c: map<string, bool>)
    ensures CompletedIn(a + b, c) == CompletedIn(a, c) + CompletedIn(b, c)
  {
    if b == [] {
      assert a + b == a;
    } else {
      var n := |b| - 1;
      assert (a + b)[..|a + b| - 1] == a + b[..n];
      CompletedInAppend(a, b[..n], c);
    }
  }

  /** Taking one question out takes its own contribution out of the done count. */
  lemma {:induction false} CompletedInRemove(qs: seq<QuestionItem>, i: nat, c: map<string, bool>)
    requires i < |qs|
    ensures CompletedIn(qs, c) == CompletedIn(RemoveAt(qs, i), c) + (if IsSet(c, qs[i].key) then 1 else 0)
  {
    var n := |qs| - 1;
    if i == n {
      assert RemoveAt(qs, i) == qs[..n];
    } else {
      var init := qs[..n];
      assert RemoveAt(qs, i) == RemoveAt(init, i) + [qs[n]];
      CompletedInRemove(init, i, c);
      var r := RemoveAt(qs, i);
      assert r[..|r| - 1] == RemoveAt(init, i);
    }
  }

  /** Moving a question inside its list does not change how many are done. */
  lemma CompletedInMove(qs: seq<QuestionItem>, i: nat, j: nat, c: map<string, bool>)
    requires i < |qs|
    ensures CompletedIn(Move(qs, i, j), c) == CompletedIn(qs, c)
  {
    CompletedInRemove(qs, i, c);
    CompletedInRemove(Move(qs, i, j), Landing(|qs|, j), c);
  }

  /** Questions in a list of subtopics. */
  function SubtopicsTotal(subs: seq<SubtopicItem>): nat {
    if subs == [] then 0 else SubtopicsTotal(subs[..|subs| - 1]) + |subs[|subs| - 1].questions|
  }

  /** Done questions in a list of subtopics. */
  function SubtopicsCompleted(subs: seq<SubtopicItem>, c: map<string, bool>): nat {
    if subs == [] then 0
    else SubtopicsCompleted(subs[..|subs| - 1], c) + CompletedIn(subs[|subs| - 1].questions, c)
  }

  /** Questions in the whole sheet. */
  function SheetTotal(topics: seq<TopicItem>): nat {
    if topics == [] then 0 else SheetTotal(topics[..|topics| - 1]) + SubtopicsTotal(topics[|topics| - 1].subtopics)
  }

  /** Done questions in the whole sheet. */
  function SheetCompleted(topics: seq<TopicItem>, c: map<string, bool>): nat {
    if topics == [] then 0
    else SheetCompleted(topics[..|topics| - 1], c) + SubtopicsCompleted(topics[|topics| - 1].subtopics, c)
  }

  lemma {:induction false} SubtopicsCompletedBounded(subs: seq<SubtopicItem>, c: map<string, bool>)
    ensures SubtopicsCompleted(subs, c) <= SubtopicsTotal(subs)
  {
    if subs != [] {
      SubtopicsCompletedBounded(subs[..|subs| - 1], c);
    }
  }

  /** However the map is filled, no more questions are done than exist. */
  lemma {:induction false} SheetCompletedBounded(topics: seq<TopicItem>, c: map<string, bool>)
    ensures SheetCompleted(topics, c) <= SheetTotal(topics)
  {
    if topics != [] {
      SheetCompletedBounded(topics[..|topics| - 1], c);
      SubtopicsCompletedBounded(topics[|topics| - 1].subtopics, c);
    }
  }

  /** The sum of the stored `totalCount` fields: `subtopics.reduce((s, st) => s + st.totalCount, 0)`. */
  function StoredTotal(subs: seq<SubtopicItem>): nat {
    if subs == [] then 0 else StoredTotal(subs[..|subs| - 1]) + subs[|subs| - 1].totalCount
  }

  /** The sum of the stored `completedCount` fields. */
  function StoredCompleted(subs: seq<SubtopicItem>): nat {
    if subs == [] then 0 else StoredCompleted(subs[..|subs| - 1]) + subs[|subs| - 1].completedCount
  }

  /** The stored counts agree with the live ones at every level. */
  ghost predicate CountsAccurate(topics: seq<TopicItem>, c: map<string, bool>) {
    forall a | 0 <= a < |topics| ::
      && topics[a].totalCount == SubtopicsTotal(topics[a].subtopics)
      && topics[a].completedCount == SubtopicsCompleted(topics[a].subtopics, c)
      && forall b | 0 <= b < |topics[a].subtopics| ::
           var st := topics[a].subtopics[b];
           st.totalCount == |st.questions| && st.completedCount == CompletedIn(st.questions, c)
  }

  /** Where the stored counts are accurate, each level has done <= total. */
  lemma CountsBounded(topics: seq<TopicItem>, c: map<string, bool>)
    requires CountsAccurate(topics, c)
    ensures forall a | 0 <= a < |topics| :: topics[a].completedCount <= topics[a].totalCount
    ensures forall a, b | 0 <= a < |topics| && 0 <= b < |topics[a].subtopics| ::
      topics[a].subtopics[b].completedCount <= topics[a].subtopics[b].totalCount
  {
    forall a | 0 <= a < |topics| ensures topics[a].completedCount <= topics[a].totalCount {
      SubtopicsCompletedBounded(topics[a].subtopics, c);
    }
  }

  lemma {:induction false} StoredSumsAccurate(subs: seq<SubtopicItem>, c: map<string, bool>)
    requires forall b | 0 <= b < |subs| ::
      subs[b].totalCount == |subs[b].questions| && subs[b].completedCount == CompletedIn(subs[b].questions, c)
    ensures StoredTotal(subs) == SubtopicsTotal(subs)
    ensures StoredCompleted(subs) == SubtopicsCompleted(subs, c)
  {
    if subs != [] {
      StoredSumsAccurate(subs[..|subs| - 1], c);
    }
  }

  // ---------------------------------------------------------------------
  // What `normalizeData` produces, stated from the grouping of the records.
  // ---------------------------------------------------------------------

  /** The questions of subtopic `s` of topic `t`: one per matching record, keyed by its position. */
  function Items(rs: seq<Record>, t: string, s: string): (qs: seq<QuestionItem>)
    ensures |qs| == |Matching(rs, t, s)|
  {
    if rs == [] then []
    else
      var n := |rs| - 1;
      var init := Items(rs[..n], t, s);
      if TopicOf(rs[n]) == t && SubOf(rs[n]) == s then init + [MakeItem(rs[n], QuestionKey(t, s, |init|))] else init
  }

  /** Question `j` of a subtopic is built from the `j`-th matching record under the key ending in `j`. */
  lemma {:induction false} ItemsAt(rs: seq<Record>, t: string, s: string, j: nat)
    requires j < |Items(rs, t, s)|
    ensures Items(rs, t, s)[j] == MakeItem(Matching(rs, t, s)[j], QuestionKey(t, s, j))
  {
    var n := |rs| - 1;
    if j < |Items(rs[..n], t, s)| {
      ItemsAt(rs[..n], t, s, j);
    }
  }

  lemma ItemsSnoc(rs: seq<Record>, r: Record, t: string, s: string)
    ensures Items(rs + [r], t, s) ==
      if t == TopicOf(r) && s == SubOf(r) then Items(rs, t, s) + [MakeItem(r, QuestionKey(t, s, |Items(rs, t, s)|))]
      else Items(rs, t, s)
  {
    assert (rs + [r])[..|rs|] == rs;
  }

  /** `initialCompletion`: each record writes `completed === true` under its key, later records last. */
  function Completion(rs: seq<Record>): map<string, bool> {
    if rs == [] then map[]
    else
      var n := |rs| - 1;
      var t, s := TopicOf(rs[n]), SubOf(rs[n]);
      Completion(rs[..n])[QuestionKey(t, s, |Matching(rs[..n], t, s)|) := rs[n].completed == Some(true)]
  }

  function AssembleSubtopic(s: string, qs: seq<QuestionItem>, c: map<string, bool>): SubtopicItem {
    SubtopicItem(s, qs, CompletedIn(qs, c), |qs|)
  }

  function AssembleTopic(t: string, subs: seq<SubtopicItem>): TopicItem {
    TopicItem(t, subs, StoredCompleted(subs), StoredTotal(subs))
  }

  function BuildSubtopics(rs: seq<Record>, t: string, ss: seq<string>, c: map<string, bool>): (subs: seq<SubtopicItem>)
    ensures |subs| == |ss|
  {
    seq(|ss|, b requires 0 <= b < |ss| => AssembleSubtopic(ss[b], Items(rs, t, ss[b]), c))
  }

  function BuildTopics(rs: seq<Record>, ts: seq<string>, c: map<string, bool>): (topics: seq<TopicItem>)
    ensures |topics| == |ts|
  {
    seq(|ts|, a requires 0 <= a < |ts| => AssembleTopic(ts[a], BuildSubtopics(rs, ts[a], SubTitles(rs, ts[a]), c)))
  }

  /** The tree `normalizeData` returns for the records `rs`. */
  function Normalize(rs: seq<Record>): seq<TopicItem> {
    BuildTopics(rs, TopicTitles(rs), Completion(rs))
  }

  // The state of the normalizing pass after the records `rs`, one predicate per map.

  /** The outer `Map`'s keys, in insertion order, are the topic titles. */
  ghost predicate TopicsFiled(rs: seq<Record>, order: seq<string>, subOrder: map<string, seq<string>>) {
    order == TopicTitles(rs) && forall t :: t in subOrder <==> t in TopicTitles(rs)
  }

  /** Each inner `Map`'s keys, in insertion order, are that topic's subtopic titles. */
  ghost predicate SubsFiled(rs: seq<Record>, subOrder: map<string, seq<string>>) {
    forall t | t in subOrder :: subOrder[t] == SubTitles(rs, t)
  }

  /** A (topic, subtopic) pair has a list exactly when some record carries it. */
  ghost predicate PairsFiled(rs: seq<Record>, buckets: map<(string, string), seq<QuestionItem>>) {
    forall t, s :: (t, s) in buckets <==> Matching(rs, t, s) != []
  }

  /** Each list holds the questions built from that pair's records. */
  ghost predicate ItemsFiled(rs: seq<Record>, buckets: map<(string, string), seq<QuestionItem>>) {
    forall t, s | (t, s) in buckets :: buckets[(t, s)] == Items(rs, t, s)
  }

  ghost predicate Grouped(rs: seq<Record>, order: seq<string>, subOrder: map<string, seq<string>>,
                          buckets: map<(string, string), seq<QuestionItem>>) {
    TopicsFiled(rs, order, subOrder) && SubsFiled(rs, subOrder) && PairsFiled(rs, buckets) && ItemsFiled(rs, buckets)
  }

  /** The closing `map` over the entries of the grouping maps, with the counts it stores. */
  function Assemble(order: seq<string>, subOrder: map<string, seq<string>>,
                    buckets: map<(string, string), seq<QuestionItem>>, c: map<string, bool>): (topics: seq<TopicItem>)
    ensures |topics| == |order|
  {
    seq(|order|, a requires 0 <= a < |order| =>
      var t := order[a];
      var ss := if t in subOrder then subOrder[t] else [];
      AssembleTopic(t, seq(|ss|, b requires 0 <= b < |ss| =>
        AssembleSubtopic(ss[b], if (t, ss[b]) in buckets then buckets[(t, ss[b])] else [], c))))
  }

  /** Once the pass has seen every record, assembling its maps gives the normalized tree. */
  lemma AssembleGrouped(rs: seq<Record>, order: seq<string>, subOrder: map<string, seq<string>>,
                        buckets: map<(string, string), seq<QuestionItem>>)
    requires Grouped(rs, order, subOrder, buckets)
    ensures Assemble(order, subOrder, buckets, Completion(rs)) == Normalize(rs)
  {
    var c := Completion(rs);
    var topics := Assemble(order, subOrder, buckets, c);
    forall a | 0 <= a < |order| ensures topics[a] == Normalize(rs)[a] {
      var t := order[a];
      assert t in subOrder;
      var ss := SubTitles(rs, t);
      forall b | 0 <= b < |ss| ensures (t, ss[b]) in buckets {
        TitlesMeaning(rs, t, ss[b]);
      }
      assert BuildSubtopics(rs, t, ss, c) == topics[a].subtopics;
    }
  }

  /** The state of the normalizing pass: the two `Map`s (as key orders and contents) and the completion record. */
  datatype PassState = PassState(
    order: seq<string>,
    subOrder: map<string, seq<string>>,
    buckets: map<(string, string), seq<QuestionItem>>,
    completion: map<string, bool>)

  /** One iteration of the pass over the record `r`. */
  ghost function FileRecord(p: PassState, r: Record): PassState {
    var t, s := TopicOf(r), SubOf(r);
    var order := if t in p.subOrder then p.order else p.order + [t];
    var so := if t in p.subOrder then p.subOrder else p.subOrder[t := []];
    var so1 := if (t, s) in p.buckets then so else so[t := so[t] + [s]];
    var bs := if (t, s) in p.buckets then p.buckets else p.buckets[(t, s) := []];
    var key := QuestionKey(t, s, |bs[(t, s)]|);
    PassState(order, so1, bs[(t, s) := bs[(t, s)] + [MakeItem(r, key)]], p.completion[key := r.completed == Some(true)])
  }

  /** The state of the pass after the records `rs`. */
  ghost function PassOver(rs: seq<Record>): PassState {
    if rs == [] then PassState([], map[], map[], map[])
    else FileRecord(PassOver(rs[..|rs| - 1]), rs[|rs| - 1])
  }

  lemma TopicsFiledStep(rs: seq<Record>, r: Record, p: PassState)
    requires TopicsFiled(rs, p.order, p.subOrder)
    ensures var q := FileRecord(p, r); TopicsFiled(rs + [r], q.order, q.subOrder)
  {
    TopicTitlesSnoc(rs, r);
  }

  lemma SubsFiledStep(rs: seq<Record>, r: Record, p: PassState)
    requires TopicsFiled(rs, p.order, p.subOrder) && SubsFiled(rs, p.subOrder) && PairsFiled(rs, p.buckets)
    ensures SubsFiled(rs + [r], FileRecord(p, r).subOrder)
  {
    var q := FileRecord(p, r);
    var t, s := TopicOf(r), SubOf(r);
    forall t' | t' in q.subOrder ensures q.subOrder[t'] == SubTitles(rs + [r], t') {
      SubTitlesSnoc(rs, r, t');
      if t' == t {
        TitlesMeaning(rs, t, s);
        if t !in p.subOrder {
          assert InTopic(rs, t) == [];
          assert SubTitles(rs, t) == [];
        }
      }
    }
  }

  lemma PairsFiledStep(rs: seq<Record>, r: Record, p: PassState)
    requires PairsFiled(rs, p.buckets)
    ensures PairsFiled(rs + [r], FileRecord(p, r).buckets)
  {
    forall t, s ensures (t, s) in FileRecord(p, r).buckets <==> Matching(rs + [r], t, s) != [] {
      MatchingSnoc(rs, r, t, s);
    }
  }

  lemma ItemsFiledStep(rs: seq<Record>, r: Record, p: PassState)
    requires PairsFiled(rs, p.buckets) && ItemsFiled(rs, p.buckets)
    ensures ItemsFiled(rs + [r], FileRecord(p, r).buckets)
  {
    var q := FileRecord(p, r);
    forall t, s | (t, s) in q.buckets ensures q.buckets[(t, s)] == Items(rs + [r], t, s) {
      ItemsSnoc(rs, r, t, s);
    }
  }

  /** One iteration writes the record's completion under the key `Completion` gives it. */
  lemma CompletionStep(rs: seq<Record>, r: Record, p: PassState)
    requires PairsFiled(rs, p.buckets) && ItemsFiled(rs, p.buckets) && p.completion == Completion(rs)
    ensures FileRecord(p, r).completion == Completion(rs + [r])
  {
    assert (rs + [r])[..|rs|] == rs;
  }

  /** The pass computes the grouping of the records it has seen and their completion map. */
  lemma {:induction false} PassOverGrouped(rs: seq<Record>)
    ensures var p := PassOver(rs);
      Grouped(rs, p.order, p.subOrder, p.buckets) && p.completion == Completion(rs)
  {
    if rs != [] {
      var n := |rs| - 1;
      assert rs == rs[..n] + [rs[n]];
      var p := PassOver(rs[..n]);
      PassOverGrouped(rs[..n]);
      TopicsFiledStep(rs[..n], rs[n], p);
      SubsFiledStep(rs[..n], rs[n], p);
      PairsFiledStep(rs[..n], rs[n], p);
      ItemsFiledStep(rs[..n], rs[n], p);
      CompletionStep(rs[..n], rs[n], p);
    }
  }

  /**
   * `normalizeData`: one pass over the records filling a map of maps (modelled
   * as the key order `order`, each topic's subtopic order `subOrder`, and the
   * question lists `buckets`) and the completion record, then one `map` over
   * the entries that builds the tree and its counts.
   */
  method NormalizeData(rs: seq<Record>) returns (topicsState: seq<TopicItem>, initialCompletion: map<string, bool>)
    ensures topicsState == Normalize(rs)
    ensures initialCompletion == Completion(rs)
  {
    var order: seq<string> := [];
    var subOrder: map<string, seq<string>> := map[];
    var buckets: map<(string, string), seq<QuestionItem>> := map[];
    var completion: map<string, bool> := map[];
    for i := 0 to |rs|
      invariant PassState(order, subOrder, buckets, completion) == PassOver(rs[..i])
    {
      var r := rs[i];
      var t, s := TopicOf(r), SubOf(r);
      assert rs[..i + 1][..i] == rs[..i];
      if t !in subOrder {
        order := order + [t];
        subOrder := subOrder[t := []];
      }
      if (t, s) !in buckets {
        subOrder := subOrder[t := subOrder[t] + [s]];
        buckets := buckets[(t, s) := []];
      }
      var qKey := QuestionKey(t, s, |buckets[(t, s)]|);
      completion := completion[qKey := r.completed == Some(true)];
      buckets := buckets[(t, s) := buckets[(t, s)] + [MakeItem(r, qKey)]];
    }
    assert rs[..|rs|] == rs;
    PassOverGrouped(rs);
    initialCompletion := completion;
    topicsState := Assemble(order, subOrder, buckets, completion);
    AssembleGrouped(rs, order, subOrder, buckets);
  }

  // ---------------------------------------------------------------------
  // Properties of the normalized tree.
  // ---------------------------------------------------------------------

  /** Topics are the distinct topic titles, in the order they first appear in the input. */
  lemma NormalizeTopicOrder(rs: seq<Record>, a: nat, b: nat)
    requires a < b < |Normalize(rs)|
    ensures Normalize(rs)[a].title != Normalize(rs)[b].title
    ensures var ns := TopicNames(rs);
      Normalize(rs)[a].title in ns && Normalize(rs)[b].title in ns
      && FirstIndex(ns, Normalize(rs)[a].title) < FirstIndex(ns, Normalize(rs)[b].title)
  {
    DedupFirstSeen(TopicNames(rs), a, b);
  }

  /** Within a topic, subtopics are the distinct subtopic titles of its records, in first-seen order. */
  lemma NormalizeSubtopicOrder(rs: seq<Record>, a: nat, b: nat, b': nat)
    requires a < |Normalize(rs)| && b < b' < |Normalize(rs)[a].subtopics|
    ensures var subs := Normalize(rs)[a].subtopics;
      subs[b].title != subs[b'].title
      && var ns := SubNames(InTopic(rs, Normalize(rs)[a].title));
      subs[b].title in ns && subs[b'].title in ns
      && FirstIndex(ns, subs[b].title) < FirstIndex(ns, subs[b'].title)
  {
    var t := TopicTitles(rs)[a];
    DedupFirstSeen(SubNames(InTopic(rs, t)), b, b');
  }

  /**
   * Flattening back: record `k` is question `j` of subtopic `b` of topic `a`,
   * where `j` counts the earlier records with the same topic and subtopic, and
   * its key is `topic||subTopic||j`.
   */
  lemma NormalizeLocate(rs: seq<Record>, k: nat) returns (a: nat, b: nat, j: nat)
    requires k < |rs|
    ensures a < |Normalize(rs)| && Normalize(rs)[a].title == TopicOf(rs[k])
    ensures b < |Normalize(rs)[a].subtopics| && Normalize(rs)[a].subtopics[b].title == SubOf(rs[k])
    ensures j == |Matching(rs[..k], TopicOf(rs[k]), SubOf(rs[k]))|
    ensures j < |Normalize(rs)[a].subtopics[b].questions|
    ensures Normalize(rs)[a].subtopics[b].questions[j] == MakeItem(rs[k], QuestionKey(TopicOf(rs[k]), SubOf(rs[k]), j))
  {
    var t, s := TopicOf(rs[k]), SubOf(rs[k]);
    Locate(rs, k);
    a := FirstIndex(TopicTitles(rs), t);
    b := FirstIndex(SubTitles(rs, t), s);
    j := |Matching(rs[..k], t, s)|;
    ItemsAt(rs, t, s, j);
  }

  lemma {:induction false} BuildSubtopicsTotal(rs: seq<Record>, t: string, ss: seq<string>, c: map<string, bool>)
    ensures SubtopicsTotal(BuildSubtopics(rs, t, ss, c)) == GroupSize(rs, t, ss)
  {
    if ss != [] {
      var n := |ss| - 1;
      assert BuildSubtopics(rs, t, ss, c)[..n] == BuildSubtopics(rs, t, ss[..n], c);
      BuildSubtopicsTotal(rs, t, ss[..n], c);
    }
  }

  lemma {:induction false} BuildTopicsTotal(rs: seq<Record>, ts: seq<string>, c: map<string, bool>)
    ensures SheetTotal(BuildTopics(rs, ts, c)) == TreeSize(rs, ts)
  {
    if ts != [] {
      var n := |ts| - 1;
      assert BuildTopics(rs, ts, c)[..n] == BuildTopics(rs, ts[..n], c);
      BuildTopicsTotal(rs, ts[..n], c);
      BuildSubtopicsTotal(rs, ts[n], SubTitles(rs, ts[n]), c);
    }
  }

  /** The normalized sheet holds exactly as many questions as there are records. */
  lemma NormalizeTotal(rs: seq<Record>)
    ensures SheetTotal(Normalize(rs)) == |rs|
  {
    BuildTopicsTotal(rs, TopicTitles(rs), Completion(rs));
    GroupingTotal(rs);
  }

  /** The counts `normalizeData` stores agree with the live counts over `initialCompletion`. */
  lemma NormalizeCounts(rs: seq<Record>)
    ensures CountsAccurate(Normalize(rs), Completion(rs))
  {
    var c := Completion(rs);
    var topics := Normalize(rs);
    forall a | 0 <= a < |topics|
      ensures topics[a].totalCount == SubtopicsTotal(topics[a].subtopics)
      ensures topics[a].completedCount == SubtopicsCompleted(topics[a].subtopics, c)
    {
      StoredSumsAccurate(topics[a].subtopics, c);
    }
  }

  /** No title of the records contains a bar, so keys split back into their parts. */
  ghost predicate BarFree(rs: seq<Record>) {
    forall k | 0 <= k < |rs| :: NoBar(TopicOf(rs[k])) && NoBar(SubOf(rs[k]))
  }

  predicate ValidPos(topics: seq<TopicItem>, a: nat, b: nat, j: nat) {
    a < |topics| && b < |topics[a].subtopics| && j < |topics[a].subtopics[b].questions|
  }

  function KeyAt(topics: seq<TopicItem>, a: nat, b: nat, j: nat): string
    requires ValidPos(topics, a, b, j)
  {
    topics[a].subtopics[b].questions[j].key
  }

  /** No two questions of the tree share a key. */
  ghost predicate KeysDistinct(topics: seq<TopicItem>) {
    forall a: nat, b: nat, j: nat, a': nat, b': nat, j': nat |
      ValidPos(topics, a, b, j) && ValidPos(topics, a', b', j') && KeyAt(topics, a, b, j) == KeyAt(topics, a', b', j')
      :: a == a' && b == b' && j == j'
  }

  lemma TopicTitleBarFree(rs: seq<Record>, t: string)
    requires BarFree(rs) && t in TopicTitles(rs)
    ensures NoBar(t)
  {
    TitlesMeaning(rs, t, "");
    InTopicMembers(rs, t);
    var x := InTopic(rs, t)[0];
    assert x in InTopic(rs, t);
    var k :| 0 <= k < |rs| && rs[k] == x;
  }

  lemma TitlesBarFree(rs: seq<Record>, t: string, s: string)
    requires BarFree(rs)
    requires t in TopicTitles(rs) && s in SubTitles(rs, t)
    ensures NoBar(t) && NoBar(s)
  {
    TitlesMeaning(rs, t, s);
    MatchingMembers(rs, t, s);
    var x := Matching(rs, t, s)[0];
    assert x in Matching(rs, t, s);
    var k :| 0 <= k < |rs| && rs[k] == x;
  }

  /** The key of a question of the normalized tree names its topic, its subtopic and its position. */
  lemma NormalizeKeyAt(rs: seq<Record>, a: nat, b: nat, j: nat)
    requires ValidPos(Normalize(rs), a, b, j)
    ensures var t := Normalize(rs)[a].title; var s := Normalize(rs)[a].subtopics[b].title;
      KeyAt(Normalize(rs), a, b, j) == QuestionKey(t, s, j)
  {
    var t := TopicTitles(rs)[a];
    ItemsAt(rs, t, SubTitles(rs, t)[b], j);
  }

  /** The `_key`s of a question list. */
  function Keys(qs: seq<QuestionItem>): (ks: seq<string>)
    ensures |ks| == |qs| && forall j | 0 <= j < |qs| :: ks[j] == qs[j].key
  {
    seq(|qs|, j requires 0 <= j < |qs| => qs[j].key)
  }

  /** The keys `t||s||0`, ..., `t||s||n-1`. */
  function KeyRange(t: string, s: string, n: nat): (ks: seq<string>)
    ensures |ks| == n && forall j | 0 <= j < n :: ks[j] == QuestionKey(t, s, j)
  {
    seq(n, j requires 0 <= j < n => QuestionKey(t, s, j))
  }

  lemma KeyRangeDistinct(t: string, s: string, n: nat)
    requires NoBar(t) && NoBar(s)
    ensures Distinct(KeyRange(t, s, n))
  {
    forall a, b | 0 <= a < b < n ensures KeyRange(t, s, n)[a] != KeyRange(t, s, n)[b] {
      if QuestionKey(t, s, a) == QuestionKey(t, s, b) {
        Join3Injective(t, s, a, t, s, b);
      }
    }
  }

  /**
   * How the tree keeps its keys apart: titles are bar-free and unique among
   * their siblings, and the questions of subtopic `s` of topic `t` carry the
   * keys `t||s||0` to `t||s||n-1` in some order.
   */
  ghost predicate WellKeyed(topics: seq<TopicItem>) {
    && (forall a | 0 <= a < |topics| :: NoBar(topics[a].title))
    && (forall a, a' | 0 <= a < a' < |topics| :: topics[a].title != topics[a'].title)
    && (forall a | 0 <= a < |topics| :: SubtopicsWellKeyed(topics[a].title, topics[a].subtopics))
  }

  ghost predicate SubtopicsWellKeyed(t: string, subs: seq<SubtopicItem>) {
    && (forall b | 0 <= b < |subs| :: NoBar(subs[b].title))
    && (forall b, b' | 0 <= b < b' < |subs| :: subs[b].title != subs[b'].title)
    && (forall b | 0 <= b < |subs| ::
          multiset(Keys(subs[b].questions)) == multiset(KeyRange(t, subs[b].title, |subs[b].questions|)))
  }

  /** A key of a well-keyed tree names its own topic and subtopic and a position below the list length. */
  lemma KeyShape(topics: seq<TopicItem>, a: nat, b: nat, j: nat) returns (m: nat)
    requires WellKeyed(topics) && ValidPos(topics, a, b, j)
    ensures var st := topics[a].subtopics[b];
      m < |st.questions| && KeyAt(topics, a, b, j) == QuestionKey(topics[a].title, st.title, m)
  {
    var st := topics[a].subtopics[b];
    var ks := Keys(st.questions);
    assert ks[j] in multiset(ks);
    assert ks[j] in KeyRange(topics[a].title, st.title, |st.questions|);
    m :| 0 <= m < |st.questions| && KeyRange(topics[a].title, st.title, |st.questions|)[m] == ks[j];
  }

  /** In a well-keyed tree no two questions share a key. */
  lemma WellKeyedDistinct(topics: seq<TopicItem>)
    requires WellKeyed(topics)
    ensures KeysDistinct(topics)
  {
    forall a: nat, b: nat, j: nat, a': nat, b': nat, j': nat |
      ValidPos(topics, a, b, j) && ValidPos(topics, a', b', j') && KeyAt(topics, a, b, j) == KeyAt(topics, a', b', j')
      ensures a == a' && b == b' && j == j'
    {
      var m := KeyShape(topics, a, b, j);
      var m' := KeyShape(topics, a', b', j');
      var t, t' := topics[a].title, topics[a'].title;
      var st, st' := topics[a].subtopics[b], topics[a'].subtopics[b'];
      Join3Injective(t, st.title, m, t', st'.title, m');
      assert SubtopicsWellKeyed(t, topics[a].subtopics);
      var ks := Keys(st.questions);
      KeyRangeDistinct(t, st.title, |st.questions|);
      DistinctPermutation(ks, KeyRange(t, st.title, |st.questions|));
      assert ks[j] == ks[j'];
    }
  }

  /** With bar-free titles the normalized tree is well keyed. */
  lemma NormalizeWellKeyed(rs: seq<Record>)
    requires BarFree(rs)
    ensures WellKeyed(Normalize(rs))
  {
    var topics := Normalize(rs);
    assert Distinct(TopicTitles(rs));
    forall a | 0 <= a < |topics| ensures NoBar(topics[a].title) && SubtopicsWellKeyed(topics[a].title, topics[a].subtopics) {
      NormalizedTopicWellKeyed(rs, a);
    }
  }

  /** One topic of the normalized tree, with bar-free titles, is well keyed. */
  lemma NormalizedTopicWellKeyed(rs: seq<Record>, a: nat)
    requires BarFree(rs) && a < |Normalize(rs)|
    ensures var topic := Normalize(rs)[a];
      NoBar(topic.title) && SubtopicsWellKeyed(topic.title, topic.subtopics)
  {
    var t := Normalize(rs)[a].title;
    var subs := Normalize(rs)[a].subtopics;
    TopicTitleBarFree(rs, t);
    assert Distinct(SubTitles(rs, t));
    forall b | 0 <= b < |subs| ensures NoBar(t) && NoBar(subs[b].title)
      && Keys(subs[b].questions) == KeyRange(t, subs[b].title, |subs[b].questions|)
    {
      var s := subs[b].title;
      TitlesBarFree(rs, t, s);
      forall j | 0 <= j < |subs[b].questions| ensures subs[b].questions[j].key == QuestionKey(t, s, j) {
        ItemsAt(rs, t, s, j);
      }
    }
  }

  /** With bar-free titles every question of the normalized sheet has its own key. */
  lemma NormalizeKeysDistinct(rs: seq<Record>)
    requires BarFree(rs)
    ensures KeysDistinct(Normalize(rs))
  {
    NormalizeWellKeyed(rs);
    WellKeyedDistinct(Normalize(rs));
  }

  /** The key normalization gives record `k`. */
  function RecordKey(rs: seq<Record>, k: nat): string
    requires k < |rs|
  {
    QuestionKey(TopicOf(rs[k]), SubOf(rs[k]), |Matching(rs[..k], TopicOf(rs[k]), SubOf(rs[k]))|)
  }

  /** A later record never reuses the key of an earlier one. */
  lemma RecordKeysDiffer(rs: seq<Record>, k: nat, n: nat)
    requires BarFree(rs) && k < n < |rs|
    ensures RecordKey(rs, k) != RecordKey(rs, n)
  {
    var t, s := TopicOf(rs[k]), SubOf(rs[k]);
    var t', s' := TopicOf(rs[n]), SubOf(rs[n]);
    var j, j' := |Matching(rs[..k], t, s)|, |Matching(rs[..n], t', s')|;
    EarlierCounted(rs, k, n);
    assert NoBar(t) && NoBar(s) && NoBar(t') && NoBar(s');
    if RecordKey(rs, k) == RecordKey(rs, n) {
      Join3Injective(t, s, j, t', s', j');
      assert false;
    }
  }

  /** Record `k` is among the records with its titles that come before a later record `n`. */
  lemma EarlierCounted(rs: seq<Record>, k: nat, n: nat)
    requires k < n < |rs|
    ensures var t, s := TopicOf(rs[k]), SubOf(rs[k]);
      |Matching(rs[..k], t, s)| < |Matching(rs[..n], t, s)|
  {
    var t, s := TopicOf(rs[k]), SubOf(rs[k]);
    assert rs[..k + 1] == rs[..k] + [rs[k]];
    MatchingSnoc(rs[..k], rs[k], t, s);
    assert rs[..n][..k + 1] == rs[..k + 1];
    MatchingPrefix(rs[..n], k + 1, t, s);
  }

  /**
   * With bar-free titles, `initialCompletion` maps each record's key to
   * whether that record had `completed === true`.
   */
  lemma {:induction false} NormalizeCompletion(rs: seq<Record>, k: nat)
    requires BarFree(rs) && k < |rs|
    ensures RecordKey(rs, k) in Completion(rs)
    ensures Completion(rs)[RecordKey(rs, k)] == (rs[k].completed == Some(true))
  {
    var n := |rs| - 1;
    var init := rs[..n];
    assert Completion(rs) == Completion(init)[RecordKey(rs, n) := rs[n].completed == Some(true)];
    if k < n {
      assert init[..k] == rs[..k] && init[k] == rs[k];
      assert RecordKey(init, k) == RecordKey(rs, k);
      assert BarFree(init);
      NormalizeCompletion(init, k);
      RecordKeysDiffer(rs, k, n);
    }
  }
}

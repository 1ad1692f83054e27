/**
 * The id-keyed sheet store: topics, subtopics and questions carry string ids,
 * the tree is built from the seed records once, and thirteen copy-on-write
 * reducers add, rename, delete, collapse and reorder its parts. Every reducer
 * that takes a parent id touches every topic (and subtopic) holding that id,
 * and none when no part holds it. Ids minted from the clock take the clock
 * reading `now` as a parameter.
 */
module IdStore {
  import opened Wrappers
  import opened Text
  import opened Seqs
  import opened Seed

  datatype Question = Question(
    id: string,
    title: Option<string>,
    difficulty: Option<string>,
    problemUrl: Option<string>,
    resource: Option<string>)

  /** `title` is `Undefined` or `Null` for a subtopic the seed left `undefined` or `null`. */
  datatype SubTopic = SubTopic(id: string, title: Nullable<string>, questions: seq<Question>)

  /** `collapsed` is optional: a topic whose flag is missing is expanded. */
  datatype Topic = Topic(id: string, title: string, subTopics: seq<SubTopic>, collapsed: Option<bool>)

  // ---------------------------------------------------------------------
  // Building the tree from the seed.
  // ---------------------------------------------------------------------

  /** Every record carries a topic title; the pass throws on the first record that does not. */
  predicate TopicsPresent(rs: seq<Record>) {
    forall k | 0 <= k < |rs| :: rs[k].topic.Some?
  }

  /** `topic-${title.toLowerCase().replace(/\s+/g, '-')}` */
  function TopicId(t: string): string {
    "topic-" + Slug(t)
  }

  /** A title as a template literal prints it: `undefined` or `null` when it is absent. */
  function TemplateText(title: Nullable<string>): string {
    match title
    case Undefined => "undefined"
    case Null => "null"
    case Given(s) => s
  }

  /** `subtopic-${topic}-${subtopic}`, lowercased, white-space runs replaced by a dash. */
  function SubTopicId(t: string, s: Nullable<string>): string {
    Slug("subtopic-" + t + "-" + TemplateText(s))
  }

  /**
   * A subtopic title as a grouping key. `st.title === subTopicTitle` tells
   * `undefined`, `null` and every string apart, and so does the key: "" stands
   * for `undefined`, "-" for `null`, and a string is keyed with a "+" in front.
   */
  function SubKey(s: Nullable<string>): (key: string)
    ensures KeyTitle(key) == s
  {
    match s
    case Undefined => ""
    case Null => "-"
    case Given(v) => assert ("+" + v)[1..] == v; "+" + v
  }

  /** The title a grouping key stands for. */
  function KeyTitle(key: string): Nullable<string> {
    if key == "" then Undefined
    else if key[0] == '-' then Null
    else Given(key[1..])
  }

  /** A record as this store groups it: its subtopic key in place of its subtopic title. */
  function Keyed(r: Record): Record {
    r.(subTopic := Given(SubKey(r.subTopic)))
  }

  function KeyedAll(rs: seq<Record>): (vs: seq<Record>)
    ensures |vs| == |rs| && forall k | 0 <= k < |rs| :: vs[k] == Keyed(rs[k])
  {
    seq(|rs|, k requires 0 <= k < |rs| => Keyed(rs[k]))
  }

  /** Every subtopic key listed for keyed records is the key of the title it stands for. */
  lemma KeysAreTitles(rs: seq<Record>, t: string, key: string)
    requires key in SubTitles(KeyedAll(rs), t)
    ensures SubKey(KeyTitle(key)) == key
  {
    var vs := KeyedAll(rs);
    var it := InTopic(vs, t);
    assert key in SubNames(it);
    var j :| 0 <= j < |it| && SubNames(it)[j] == key;
    InTopicMembers(vs, t);
    assert it[j] in vs;
    var k :| 0 <= k < |vs| && vs[k] == it[j];
    assert key == SubKey(rs[k].subTopic);
  }

  /** The question a record becomes; a missing `questionId` leaves difficulty and link undefined. */
  function QuestionOf(r: Record): Question {
    Question(
      r.id,
      r.title,
      if r.questionId.Some? then r.questionId.value.difficulty else None,
      if r.questionId.Some? then r.questionId.value.problemUrl else None,
      r.resource)
  }

  function QuestionsOf(rs: seq<Record>): (qs: seq<Question>)
    ensures |qs| == |rs| && forall k | 0 <= k < |rs| :: qs[k] == QuestionOf(rs[k])
  {
    seq(|rs|, k requires 0 <= k < |rs| => QuestionOf(rs[k]))
  }

  /** Subtopic `key` of topic `t` among the keyed records `vs`: its records' questions, in input order. */
  function SubTopicSpec(vs: seq<Record>, t: string, key: string): SubTopic {
    SubTopic(SubTopicId(t, KeyTitle(key)), KeyTitle(key), QuestionsOf(Matching(vs, t, key)))
  }

  /** The subtopics of topic `t`, in the order their keys first occur. */
  function SubTopicsSpec(vs: seq<Record>, t: string): (subs: seq<SubTopic>)
    ensures |subs| == |SubTitles(vs, t)|
    ensures forall b | 0 <= b < |subs| :: subs[b] == SubTopicSpec(vs, t, SubTitles(vs, t)[b])
  {
    var ss := SubTitles(vs, t);
    seq(|ss|, b requires 0 <= b < |ss| => SubTopicSpec(vs, t, ss[b]))
  }

  /** Topic `t` as the keyed records define it; every seeded topic starts expanded. */
  function TopicSpec(vs: seq<Record>, t: string): Topic {
    Topic(TopicId(t), t, SubTopicsSpec(vs, t), Some(false))
  }

  /** The tree grouped from keyed records: one topic per title, in the order the titles first occur. */
  function SeedTree(vs: seq<Record>): (topics: seq<Topic>)
    ensures |topics| == |TopicTitles(vs)|
    ensures forall a | 0 <= a < |topics| :: topics[a] == TopicSpec(vs, TopicTitles(vs)[a])
  {
    var ts := TopicTitles(vs);
    seq(|ts|, a requires 0 <= a < |ts| => TopicSpec(vs, ts[a]))
  }

  /** The tree the store starts from (meaningful when every record has a topic: otherwise the pass throws). */
  function NormalizeSpec(rs: seq<Record>): seq<Topic> {
    SeedTree(KeyedAll(rs))
  }

  /** `subTopics.find(st => st.title === title)`, as an index. */
  function FindSubTopic(subs: seq<SubTopic>, title: Nullable<string>): (b: Option<nat>)
    ensures b.Some? ==> b.value < |subs| && subs[b.value].title == title
    ensures b.Some? ==> forall k | 0 <= k < b.value :: subs[k].title != title
    ensures b.None? ==> forall k | 0 <= k < |subs| :: subs[k].title != title
  {
    if subs == [] then None
    else if subs[0].title == title then Some(0)
    else
      var rest := FindSubTopic(subs[1..], title);
      if rest.None? then None else Some(rest.value + 1)
  }

  /** A topic no record has yet is the empty topic the loop creates. */
  lemma NewTopicSpec(vs: seq<Record>, t: string)
    requires t !in TopicTitles(vs)
    ensures TopicSpec(vs, t) == Topic(TopicId(t), t, [], Some(false))
  {
    TitlesMeaning(vs, t, "");
    assert SubNames(InTopic(vs, t)) == [];
  }

  /** One more record leaves every other topic as it was. */
  lemma TopicSpecOther(vs: seq<Record>, r: Record, t: string)
    requires t != TopicOf(r)
    ensures TopicSpec(vs + [r], t) == TopicSpec(vs, t)
  {
    SubTitlesSnoc(vs, r, t);
    var ss := SubTitles(vs, t);
    forall b | 0 <= b < |ss| ensures SubTopicSpec(vs + [r], t, ss[b]) == SubTopicSpec(vs, t, ss[b]) {
      MatchingSnoc(vs, r, t, ss[b]);
    }
  }

  /** One more record appends its question to its own group. */
  lemma QuestionsOfSnoc(rs: seq<Record>, r: Record)
    ensures QuestionsOf(rs + [r]) == QuestionsOf(rs) + [QuestionOf(r)]
  {
  }

  /** A record whose subtopic key is already listed joins that subtopic. */
  lemma TopicSpecFileFound(vs: seq<Record>, r: Record, b: nat)
    requires b < |SubTitles(vs, TopicOf(r))| && SubTitles(vs, TopicOf(r))[b] == SubOf(r)
    ensures var subs := SubTopicsSpec(vs, TopicOf(r));
      SubTopicsSpec(vs + [r], TopicOf(r)) == subs[b := subs[b].(questions := subs[b].questions + [QuestionOf(r)])]
  {
    var t, s := TopicOf(r), SubOf(r);
    var subs := SubTopicsSpec(vs, t);
    var want := subs[b := subs[b].(questions := subs[b].questions + [QuestionOf(r)])];
    SubTitlesSnoc(vs, r, t);
    var got := SubTopicsSpec(vs + [r], t);
    forall k | 0 <= k < |got| ensures got[k] == want[k] {
      var sk := SubTitles(vs, t)[k];
      MatchingSnoc(vs, r, t, sk);
      if k == b {
        QuestionsOfSnoc(Matching(vs, t, s), r);
      }
    }
  }

  /** A record with a new subtopic key opens that subtopic at the end of its topic. */
  lemma TopicSpecFileNew(vs: seq<Record>, r: Record)
    requires SubOf(r) !in SubTitles(vs, TopicOf(r))
    ensures var t, s := TopicOf(r), SubOf(r);
      SubTopicsSpec(vs + [r], t) == SubTopicsSpec(vs, t) + [SubTopic(SubTopicId(t, KeyTitle(s)), KeyTitle(s), [QuestionOf(r)])]
  {
    var t, s := TopicOf(r), SubOf(r);
    var ss := SubTitles(vs, t);
    var want := SubTopicsSpec(vs, t) + [SubTopic(SubTopicId(t, KeyTitle(s)), KeyTitle(s), [QuestionOf(r)])];
    SubTitlesSnoc(vs, r, t);
    assert SubTitles(vs + [r], t) == ss + [s];
    var got := SubTopicsSpec(vs + [r], t);
    forall k | 0 <= k < |ss| ensures got[k] == want[k] {
      SubTopicSpecOther(vs, r, ss[k]);
    }
    SubTopicSpecOpened(vs, r);
    assert got[|ss|] == want[|ss|];
  }

  /** A subtopic of the record's topic under another key is unchanged by the record. */
  lemma SubTopicSpecOther(vs: seq<Record>, r: Record, key: string)
    requires key != SubOf(r)
    ensures SubTopicSpec(vs + [r], TopicOf(r), key) == SubTopicSpec(vs, TopicOf(r), key)
  {
    MatchingSnoc(vs, r, TopicOf(r), key);
  }

  /** The subtopic a record opens under a new key holds just its question. */
  lemma SubTopicSpecOpened(vs: seq<Record>, r: Record)
    requires SubOf(r) !in SubTitles(vs, TopicOf(r))
    ensures var t, s := TopicOf(r), SubOf(r);
      SubTopicSpec(vs + [r], t, s) == SubTopic(SubTopicId(t, KeyTitle(s)), KeyTitle(s), [QuestionOf(r)])
  {
    var t, s := TopicOf(r), SubOf(r);
    TitlesMeaning(vs, t, s);
    MatchingSnoc(vs, r, t, s);
    assert Matching(vs + [r], t, s) == [r];
    QuestionsOfSnoc([], r);
  }

  /** Pushing the record's question onto the subtopic the loop just opened gives the subtopics after the record. */
  lemma PushOntoNew(vs: seq<Record>, r: Record)
    requires SubOf(r) !in SubTitles(vs, TopicOf(r))
    ensures var t, s := TopicOf(r), SubOf(r);
      var subs := SubTopicsSpec(vs, t) + [SubTopic(SubTopicId(t, KeyTitle(s)), KeyTitle(s), [])];
      var b := |subs| - 1;
      subs[b := subs[b].(questions := subs[b].questions + [QuestionOf(r)])] == SubTopicsSpec(vs + [r], t)
  {
    var t, s := TopicOf(r), SubOf(r);
    TopicSpecFileNew(vs, r);
    var subs := SubTopicsSpec(vs, t) + [SubTopic(SubTopicId(t, KeyTitle(s)), KeyTitle(s), [])];
    var b := |subs| - 1;
    assert [] + [QuestionOf(r)] == [QuestionOf(r)];
    assert subs[b := subs[b].(questions := subs[b].questions + [QuestionOf(r)])]
        == SubTopicsSpec(vs, t) + [SubTopic(SubTopicId(t, KeyTitle(s)), KeyTitle(s), [QuestionOf(r)])];
  }

  /** The loop finds a subtopic by title exactly at the position of its key among the listed keys. */
  lemma FindSubTopicSpec(rs: seq<Record>, t: string, s: Nullable<string>)
    ensures var vs := KeyedAll(rs);
      var found := FindSubTopic(SubTopicsSpec(vs, t), s);
      && (found.None? <==> SubKey(s) !in SubTitles(vs, t))
      && (found.Some? ==> SubTitles(vs, t)[found.value] == SubKey(s))
  {
    var vs := KeyedAll(rs);
    var ss := SubTitles(vs, t);
    var found := FindSubTopic(SubTopicsSpec(vs, t), s);
    if SubKey(s) in ss {
      var k :| 0 <= k < |ss| && ss[k] == SubKey(s);
      assert SubTopicsSpec(vs, t)[k].title == s;
    }
    if found.Some? {
      KeysAreTitles(rs, t, ss[found.value]);
    }
  }

  /** Filing one record replaces its own topic's entry and leaves every other entry right. */
  lemma TopicsMapStep(m: map<string, Topic>, vs: seq<Record>, r: Record, filed: Topic)
    requires forall t | t in m :: m[t] == TopicSpec(vs, t)
    requires filed == TopicSpec(vs + [r], TopicOf(r))
    ensures forall t | t in m[TopicOf(r) := filed] :: m[TopicOf(r) := filed][t] == TopicSpec(vs + [r], t)
  {
    forall t | t in m && t != TopicOf(r) ensures m[t] == TopicSpec(vs + [r], t) {
      TopicSpecOther(vs, r, t);
    }
  }

  lemma KeyedAllSnoc(rs: seq<Record>, r: Record)
    ensures KeyedAll(rs + [r]) == KeyedAll(rs) + [Keyed(r)]
  {
  }

  /**
   * The inner step of `normalizeData`: find the record's subtopic in its
   * topic by title (or open it at the end) and push the record's question.
   * Given the topic as the records `done` define it, the result is the
   * topic as `done` plus this record define it.
   */
  method FileRecord(ghost done: seq<Record>, topic: Topic, q: Record) returns (filed: Topic)
    requires topic == TopicSpec(KeyedAll(done), TopicOf(q))
    ensures filed == TopicSpec(KeyedAll(done + [q]), TopicOf(q))
  {
    ghost var vs, kq := KeyedAll(done), Keyed(q);
    KeyedAllSnoc(done, q);
    assert TopicOf(kq) == TopicOf(q) && SubOf(kq) == SubKey(q.subTopic) && QuestionOf(kq) == QuestionOf(q);
    var subTopicTitle := q.subTopic;
    var subTopics := topic.subTopics;
    var found := FindSubTopic(subTopics, subTopicTitle);
    FindSubTopicSpec(done, TopicOf(q), subTopicTitle);
    var b: nat;
    if found.None? {
      subTopics := subTopics + [SubTopic(SubTopicId(topic.title, subTopicTitle), subTopicTitle, [])];
      b := |subTopics| - 1;
      PushOntoNew(vs, kq);
    } else {
      b := found.value;
      TopicSpecFileFound(vs, kq, b);
    }
    subTopics := subTopics[b := subTopics[b].(questions := subTopics[b].questions + [QuestionOf(q)])];
    filed := topic.(subTopics := subTopics);
  }

  /**
   * The loop's state after the keyed records `vs`: the topic titles in the
   * order they were first met, and the map from each title to its topic.
   */
  ghost predicate Filed(order: seq<string>, topicsMap: map<string, Topic>, vs: seq<Record>) {
    && order == TopicTitles(vs)
    && (forall t :: t in topicsMap <==> t in order)
    && (forall t | t in topicsMap :: topicsMap[t] == TopicSpec(vs, t))
  }

  /**
   * One turn of the loop for a record with a topic: take its topic from the
   * map, or a new empty one appended to the key order when the title is
   * absent, file the record into it, and store it under its title.
   */
  method FileInto(ghost done: seq<Record>, order: seq<string>, topicsMap: map<string, Topic>, q: Record)
      returns (order': seq<string>, topicsMap': map<string, Topic>)
    requires q.topic.Some? && Filed(order, topicsMap, KeyedAll(done))
    ensures Filed(order', topicsMap', KeyedAll(done + [q]))
  {
    var topicTitle := q.topic.value;
    ghost var vs := KeyedAll(done);
    var topic: Topic;
    if topicTitle in topicsMap {
      order', topic := order, topicsMap[topicTitle];
    } else {
      NewTopicSpec(vs, topicTitle);
      order', topic := order + [topicTitle], Topic(TopicId(topicTitle), topicTitle, [], Some(false));
    }
    var filed := FileRecord(done, topic, q);
    KeyedAllSnoc(done, q);
    FiledStep(order, topicsMap, vs, Keyed(q), order', filed);
    topicsMap' := topicsMap[topicTitle := filed];
  }

  /** Filing a record keeps the order of first appearance and every topic right. */
  lemma FiledStep(order: seq<string>, m: map<string, Topic>, vs: seq<Record>, r: Record, order': seq<string>, filed: Topic)
    requires Filed(order, m, vs)
    requires order' == if TopicOf(r) in m then order else order + [TopicOf(r)]
    requires filed == TopicSpec(vs + [r], TopicOf(r))
    ensures Filed(order', m[TopicOf(r) := filed], vs + [r])
  {
    TopicTitlesSnoc(vs, r);
    TopicsMapStep(m, vs, r, filed);
  }

  /** One record further into the seed, every record so far still has a topic. */
  lemma NormalizeStep(rs: seq<Record>, i: nat)
    requires i < |rs| && rs[i].topic.Some? && TopicsPresent(rs[..i])
    ensures rs[..i + 1] == rs[..i] + [rs[i]] && TopicsPresent(rs[..i + 1])
  {
    assert rs[..i + 1] == rs[..i] + [rs[i]];
  }

  /**
   * `normalizeData`: one pass over the records with a `Map` from topic title
   * to topic; each record finds (or creates) its topic, then files itself
   * into it. The map's values, in insertion order, are the tree. A record
   * without a topic makes `topicTitle.toLowerCase()` throw: `None`.
   */
  method NormalizeData(rs: seq<Record>) returns (topics: Option<seq<Topic>>)
    ensures topics.None? <==> !TopicsPresent(rs)
    ensures topics.Some? ==> topics.value == NormalizeSpec(rs)
  {
    var order: seq<string> := [];
    var topicsMap: map<string, Topic> := map[];
    for i := 0 to |rs|
      invariant TopicsPresent(rs[..i])
      invariant Filed(order, topicsMap, KeyedAll(rs[..i]))
    {
      if rs[i].topic.None? {
        assert !TopicsPresent(rs) by {
          assert rs[i].topic.None?;
        }
        return None;
      }
      NormalizeStep(rs, i);
      order, topicsMap := FileInto(rs[..i], order, topicsMap, rs[i]);
    }
    assert rs[..|rs|] == rs;
    topics := Some(seq(|order|, a requires 0 <= a < |order| => topicsMap[order[a]]));
  }

  // ---------------------------------------------------------------------
  // What the seeded tree looks like.
  // ---------------------------------------------------------------------

  /**
   * Topics come once per title, in first-seen order; subtopics likewise within
   * their topic. Stated for every seed, though the store is only built from
   * seeds whose records all have a topic (`TopicsPresent`).
   */
  lemma NormalizeDistinctTitles(rs: seq<Record>, a: nat, a': nat, b: nat, b': nat)
    requires a < a' < |NormalizeSpec(rs)|
    requires b < b' < |NormalizeSpec(rs)[a].subTopics|
    ensures NormalizeSpec(rs)[a].title != NormalizeSpec(rs)[a'].title
    ensures NormalizeSpec(rs)[a].title in TopicNames(rs) && NormalizeSpec(rs)[a'].title in TopicNames(rs)
    ensures FirstIndex(TopicNames(rs), NormalizeSpec(rs)[a].title) < FirstIndex(TopicNames(rs), NormalizeSpec(rs)[a'].title)
    ensures NormalizeSpec(rs)[a].subTopics[b].title != NormalizeSpec(rs)[a].subTopics[b'].title
  {
    var vs := KeyedAll(rs);
    assert TopicNames(vs) == TopicNames(rs);
    DedupFirstSeen(TopicNames(vs), a, a');
    var ss := SubTitles(vs, NormalizeSpec(rs)[a].title);
    KeysAreTitles(rs, NormalizeSpec(rs)[a].title, ss[b]);
    KeysAreTitles(rs, NormalizeSpec(rs)[a].title, ss[b']);
  }

  /**
   * Every record's question sits in the subtopic of its titles, at its
   * position among that group. Stated for every seed, though the store is only
   * built from seeds whose records all have a topic (`TopicsPresent`).
   */
  lemma NormalizeLocate(rs: seq<Record>, k: nat) returns (a: nat, b: nat, j: nat)
    requires k < |rs|
    ensures a < |NormalizeSpec(rs)| && b < |NormalizeSpec(rs)[a].subTopics|
    ensures j < |NormalizeSpec(rs)[a].subTopics[b].questions|
    ensures NormalizeSpec(rs)[a].title == TopicOf(rs[k])
    ensures NormalizeSpec(rs)[a].subTopics[b].title == rs[k].subTopic
    ensures NormalizeSpec(rs)[a].subTopics[b].id == SubTopicId(TopicOf(rs[k]), rs[k].subTopic)
    ensures NormalizeSpec(rs)[a].subTopics[b].questions[j] == QuestionOf(rs[k])
  {
    var vs := KeyedAll(rs);
    var t, s := TopicOf(vs[k]), SubOf(vs[k]);
    Locate(vs, k);
    a := FirstIndex(TopicTitles(vs), t);
    b := FirstIndex(SubTitles(vs, t), s);
    j := |Matching(vs[..k], t, s)|;
    assert QuestionOf(vs[k]) == QuestionOf(rs[k]);
  }

  /** Questions in a list of subtopics. */
  function SubTopicsSize(subs: seq<SubTopic>): nat {
    if subs == [] then 0 else SubTopicsSize(subs[..|subs| - 1]) + |subs[|subs| - 1].questions|
  }

  /** Questions in the whole tree. */
  function TreeQuestions(topics: seq<Topic>): nat {
    if topics == [] then 0 else TreeQuestions(topics[..|topics| - 1]) + SubTopicsSize(topics[|topics| - 1].subTopics)
  }

  lemma {:induction false} SubTopicsSizeSpec(vs: seq<Record>, t: string, n: nat)
    requires n <= |SubTitles(vs, t)|
    ensures SubTopicsSize(SubTopicsSpec(vs, t)[..n]) == GroupSize(vs, t, SubTitles(vs, t)[..n])
  {
    if n > 0 {
      var ss := SubTitles(vs, t);
      assert SubTopicsSpec(vs, t)[..n][..n - 1] == SubTopicsSpec(vs, t)[..n - 1];
      assert ss[..n][..n - 1] == ss[..n - 1];
      SubTopicsSizeSpec(vs, t, n - 1);
    }
  }

  /** A seeded topic holds as many questions as its groups of records. */
  lemma TopicQuestionsSpec(vs: seq<Record>, t: string)
    ensures SubTopicsSize(TopicSpec(vs, t).subTopics) == GroupSize(vs, t, SubTitles(vs, t))
  {
    var ss := SubTitles(vs, t);
    SubTopicsSizeSpec(vs, t, |ss|);
    assert SubTopicsSpec(vs, t)[..|ss|] == SubTopicsSpec(vs, t);
    assert ss[..|ss|] == ss;
  }

  lemma {:induction false} TreeQuestionsSpec(vs: seq<Record>, n: nat)
    requires n <= |TopicTitles(vs)|
    ensures TreeQuestions(SeedTree(vs)[..n]) == TreeSize(vs, TopicTitles(vs)[..n])
  {
    if n > 0 {
      var ts, tree := TopicTitles(vs), SeedTree(vs);
      var t := ts[n - 1];
      assert tree[..n][..n - 1] == tree[..n - 1];
      assert ts[..n][..n - 1] == ts[..n - 1];
      TreeQuestionsSpec(vs, n - 1);
      assert tree[..n][n - 1] == TopicSpec(vs, t);
      TopicQuestionsSpec(vs, t);
    }
  }

  /** The seeded tree holds exactly one question per record. */
  lemma NormalizeTotal(rs: seq<Record>)
    ensures TreeQuestions(NormalizeSpec(rs)) == |rs|
  {
    var vs := KeyedAll(rs);
    var ts := TopicTitles(vs);
    TreeQuestionsSpec(vs, |ts|);
    assert SeedTree(vs)[..|ts|] == SeedTree(vs);
    assert ts[..|ts|] == ts;
    GroupingTotal(vs);
  }

  /** Titles that differ only in letter case get the same topic id. */
  lemma TopicIdCaseCollision()
    ensures TopicId("A") == TopicId("a")
  {
  }

  // ---------------------------------------------------------------------
  // Copy-on-write helpers: `xs.map(x => x.id === id ? f(x) : x)`.
  // ---------------------------------------------------------------------

  function MapTopics(topics: seq<Topic>, id: string, f: Topic -> Topic): (r: seq<Topic>)
    ensures |r| == |topics|
    ensures forall a | 0 <= a < |topics| :: r[a] == if topics[a].id == id then f(topics[a]) else topics[a]
  {
    seq(|topics|, a requires 0 <= a < |topics| => if topics[a].id == id then f(topics[a]) else topics[a])
  }

  function MapSubTopics(subs: seq<SubTopic>, id: string, f: SubTopic -> SubTopic): (r: seq<SubTopic>)
    ensures |r| == |subs|
    ensures forall b | 0 <= b < |subs| :: r[b] == if subs[b].id == id then f(subs[b]) else subs[b]
  {
    seq(|subs|, b requires 0 <= b < |subs| => if subs[b].id == id then f(subs[b]) else subs[b])
  }

  function MapQuestions(qs: seq<Question>, id: string, f: Question -> Question): (r: seq<Question>)
    ensures |r| == |qs|
    ensures forall k | 0 <= k < |qs| :: r[k] == if qs[k].id == id then f(qs[k]) else qs[k]
  {
    seq(|qs|, k requires 0 <= k < |qs| => if qs[k].id == id then f(qs[k]) else qs[k])
  }

  // ---------------------------------------------------------------------
  // Topic reducers.
  // ---------------------------------------------------------------------

  function NewTopicId(now: nat): string {
    "topic-" + NatToString(now)
  }

  /** `addTopic`: a new, empty, expanded topic at the end. */
  function TopicAdded(topics: seq<Topic>, title: string, now: nat): (r: seq<Topic>)
    ensures |r| == |topics| + 1 && r[..|topics|] == topics
    ensures r[|topics|] == Topic(NewTopicId(now), title, [], Some(false))
  {
    topics + [Topic(NewTopicId(now), title, [], Some(false))]
  }

  /** `updateTopic`: every topic with the id is renamed; nothing else changes. */
  function TopicUpdated(topics: seq<Topic>, id: string, title: string): (r: seq<Topic>)
    ensures |r| == |topics|
    ensures forall a | 0 <= a < |topics| ::
      && r[a].id == topics[a].id && r[a].subTopics == topics[a].subTopics && r[a].collapsed == topics[a].collapsed
      && r[a].title == (if topics[a].id == id then title else topics[a].title)
  {
    MapTopics(topics, id, (t: Topic) => t.(title := title))
  }

  /** `deleteTopic`: the topics without the id, in their order. */
  function TopicDeleted(topics: seq<Topic>, id: string): (r: seq<Topic>)
    ensures |r| <= |topics|
    ensures forall t :: t in r <==> t in topics && t.id != id
  {
    Filter(topics, (t: Topic) => t.id != id)
  }

  /** A missing flag reads as expanded. */
  predicate IsCollapsed(t: Topic) {
    t.collapsed == Some(true)
  }

  /** `toggleTopicCollapse`: `collapsed: !t.collapsed` on every topic with the id. */
  function CollapseToggled(topics: seq<Topic>, id: string): (r: seq<Topic>)
    ensures |r| == |topics|
    ensures forall a | 0 <= a < |topics| ::
      && r[a].id == topics[a].id && r[a].title == topics[a].title && r[a].subTopics == topics[a].subTopics
      && (topics[a].id == id ==> r[a].collapsed.Some? && (IsCollapsed(r[a]) <==> !IsCollapsed(topics[a])))
      && (topics[a].id != id ==> r[a].collapsed == topics[a].collapsed)
  {
    MapTopics(topics, id, (t: Topic) => t.(collapsed := Some(!IsCollapsed(t))))
  }

  /** `reorderTopics`: the topic at `i` moves to `j`. */
  function TopicsReordered(topics: seq<Topic>, i: nat, j: nat): (r: seq<Topic>)
    requires i < |topics|
    ensures |r| == |topics| && multiset(r) == multiset(topics)
    ensures r[Landing(|topics|, j)] == topics[i]
    ensures RemoveAt(r, Landing(|topics|, j)) == RemoveAt(topics, i)
  {
    Move(topics, i, j)
  }

  /** Deleting a topic just added under a fresh id gives back the topics from before. */
  lemma TopicAddDelete(topics: seq<Topic>, title: string, now: nat)
    requires forall a | 0 <= a < |topics| :: topics[a].id != NewTopicId(now)
    ensures TopicDeleted(TopicAdded(topics, title, now), NewTopicId(now)) == topics
  {
    var keep := (t: Topic) => t.id != NewTopicId(now);
    var made := Topic(NewTopicId(now), title, [], Some(false));
    FilterAppend(topics, [made], keep);
    FilterAll(topics, keep);
    assert Filter([made], keep) == [] by {
      assert [made][..0] == [];
    }
  }

  /** Deleting twice is deleting once. */
  lemma TopicDeleteTwice(topics: seq<Topic>, id: string)
    ensures TopicDeleted(TopicDeleted(topics, id), id) == TopicDeleted(topics, id)
  {
    FilterIdempotent(topics, (t: Topic) => t.id != id);
  }

  /** Renaming keeps every id in its place, and renaming again to the same title changes nothing. */
  lemma TopicUpdateTwice(topics: seq<Topic>, id: string, title: string)
    ensures TopicUpdated(TopicUpdated(topics, id, title), id, title) == TopicUpdated(topics, id, title)
  {
    var r := TopicUpdated(topics, id, title);
    var rr := TopicUpdated(r, id, title);
    forall a | 0 <= a < |topics| ensures rr[a] == r[a] {
    }
  }

  /** Collapsing twice restores whether each topic is collapsed, and restores an explicit flag exactly. */
  lemma CollapseTwice(topics: seq<Topic>, id: string)
    ensures var r := CollapseToggled(CollapseToggled(topics, id), id);
      && |r| == |topics|
      && forall a | 0 <= a < |topics| ::
        && (IsCollapsed(r[a]) <==> IsCollapsed(topics[a]))
        && (topics[a].collapsed.Some? ==> r[a] == topics[a])
  {
    var r1 := CollapseToggled(topics, id);
    var r := CollapseToggled(r1, id);
    forall a | 0 <= a < |topics|
      ensures (IsCollapsed(r[a]) <==> IsCollapsed(topics[a])) && (topics[a].collapsed.Some? ==> r[a] == topics[a])
    {
      if topics[a].id == id {
        assert r1[a] == topics[a].(collapsed := Some(!IsCollapsed(topics[a])));
        assert r[a] == r1[a].(collapsed := Some(!IsCollapsed(r1[a])));
        if topics[a].collapsed.Some? {
          var v := topics[a].collapsed.value;
          assert topics[a].collapsed == Some(v);
          assert r[a].collapsed == Some(v);
        }
      } else {
        assert r1[a] == topics[a] && r[a] == r1[a];
      }
    }
  }

  /** Reordering onto the same index changes nothing; dragging back restores the order. */
  lemma TopicsReorderInverse(topics: seq<Topic>, i: nat, j: nat)
    requires i < |topics|
    ensures TopicsReordered(topics, i, i) == topics
    ensures TopicsReordered(TopicsReordered(topics, i, j), Landing(|topics|, j), i) == topics
  {
    MoveSame(topics, i);
    MoveBack(topics, i, j);
  }

  // ---------------------------------------------------------------------
  // Subtopic reducers.
  // ---------------------------------------------------------------------

  function NewSubTopicId(now: nat): string {
    "subtopic-" + NatToString(now)
  }

  /** `addSubTopic`: a new, empty subtopic at the end of every topic with the id. */
  function SubTopicAdded(topics: seq<Topic>, topicId: string, title: string, now: nat): (r: seq<Topic>)
    ensures |r| == |topics|
    ensures forall a | 0 <= a < |topics| && topics[a].id != topicId :: r[a] == topics[a]
    ensures forall a | 0 <= a < |topics| && topics[a].id == topicId ::
      r[a] == topics[a].(subTopics := topics[a].subTopics + [SubTopic(NewSubTopicId(now), Given(title), [])])
  {
    MapTopics(topics, topicId, (t: Topic) => t.(subTopics := t.subTopics + [SubTopic(NewSubTopicId(now), Given(title), [])]))
  }

  /** `updateSubTopic`: renames every subtopic with the id inside every topic with the id. */
  function SubTopicUpdated(topics: seq<Topic>, topicId: string, subTopicId: string, title: string): (r: seq<Topic>)
    ensures |r| == |topics|
    ensures forall a | 0 <= a < |topics| && topics[a].id != topicId :: r[a] == topics[a]
    ensures forall a | 0 <= a < |topics| && topics[a].id == topicId ::
      var subs, subs' := topics[a].subTopics, r[a].subTopics;
      && r[a] == topics[a].(subTopics := subs')
      && |subs'| == |subs|
      && forall b | 0 <= b < |subs| ::
        && subs'[b].id == subs[b].id && subs'[b].questions == subs[b].questions
        && subs'[b].title == (if subs[b].id == subTopicId then Given(title) else subs[b].title)
  {
    MapTopics(topics, topicId, (t: Topic) => t.(subTopics := MapSubTopics(t.subTopics, subTopicId, (st: SubTopic) => st.(title := Given(title)))))
  }

  /** `deleteSubTopic`: drops every subtopic with the id from every topic with the id. */
  function SubTopicDeleted(topics: seq<Topic>, topicId: string, subTopicId: string): (r: seq<Topic>)
    ensures |r| == |topics|
    ensures forall a | 0 <= a < |topics| && topics[a].id != topicId :: r[a] == topics[a]
    ensures forall a | 0 <= a < |topics| && topics[a].id == topicId ::
      && r[a] == topics[a].(subTopics := r[a].subTopics)
      && forall st :: st in r[a].subTopics <==> st in topics[a].subTopics && st.id != subTopicId
  {
    MapTopics(topics, topicId, (t: Topic) => t.(subTopics := Filter(t.subTopics, (st: SubTopic) => st.id != subTopicId)))
  }

  /** Every topic `reorderSubTopics` touches has a subtopic at the source index. */
  predicate CanReorderSubTopics(topics: seq<Topic>, topicId: string, i: nat) {
    forall a | 0 <= a < |topics| && topics[a].id == topicId :: i < |topics[a].subTopics|
  }

  /** `reorderSubTopics`: inside every topic with the id, the subtopic at `i` moves to `j`. */
  function SubTopicsReordered(topics: seq<Topic>, topicId: string, i: nat, j: nat): (r: seq<Topic>)
    requires CanReorderSubTopics(topics, topicId, i)
    ensures |r| == |topics|
    ensures forall a | 0 <= a < |topics| && topics[a].id != topicId :: r[a] == topics[a]
    ensures forall a | 0 <= a < |topics| && topics[a].id == topicId ::
      var subs, subs' := topics[a].subTopics, r[a].subTopics;
      && r[a] == topics[a].(subTopics := subs')
      && |subs'| == |subs| && multiset(subs') == multiset(subs)
      && subs'[Landing(|subs|, j)] == subs[i]
      && RemoveAt(subs', Landing(|subs|, j)) == RemoveAt(subs, i)
  {
    seq(|topics|, a requires 0 <= a < |topics| =>
      if topics[a].id != topicId then topics[a]
      else topics[a].(subTopics := Move(topics[a].subTopics, i, j)))
  }

  /** Adding or deleting under a parent id nobody holds changes nothing. */
  lemma SubTopicParentAbsent(topics: seq<Topic>, topicId: string, subTopicId: string, title: string, now: nat)
    requires forall a | 0 <= a < |topics| :: topics[a].id != topicId
    ensures SubTopicAdded(topics, topicId, title, now) == topics
    ensures SubTopicUpdated(topics, topicId, subTopicId, title) == topics
    ensures SubTopicDeleted(topics, topicId, subTopicId) == topics
  {
  }

  /** Deleting a subtopic just added under a fresh id gives back the topics from before. */
  lemma SubTopicAddDelete(topics: seq<Topic>, topicId: string, title: string, now: nat)
    requires forall a, b | 0 <= a < |topics| && 0 <= b < |topics[a].subTopics| ::
      topics[a].id == topicId ==> topics[a].subTopics[b].id != NewSubTopicId(now)
    ensures SubTopicDeleted(SubTopicAdded(topics, topicId, title, now), topicId, NewSubTopicId(now)) == topics
  {
    var r := SubTopicDeleted(SubTopicAdded(topics, topicId, title, now), topicId, NewSubTopicId(now));
    var keep := (st: SubTopic) => st.id != NewSubTopicId(now);
    var made := SubTopic(NewSubTopicId(now), Given(title), []);
    forall a | 0 <= a < |topics| && topics[a].id == topicId ensures r[a] == topics[a] {
      var subs := topics[a].subTopics;
      FilterAppend(subs, [made], keep);
      FilterAll(subs, keep);
      assert Filter([made], keep) == [] by {
        assert [made][..0] == [];
      }
    }
  }

  /** Reordering subtopics onto the same index changes nothing. */
  lemma SubTopicsReorderSame(topics: seq<Topic>, topicId: string, i: nat)
    requires CanReorderSubTopics(topics, topicId, i)
    ensures SubTopicsReordered(topics, topicId, i, i) == topics
  {
    var r := SubTopicsReordered(topics, topicId, i, i);
    forall a | 0 <= a < |topics| && topics[a].id == topicId ensures r[a] == topics[a] {
      MoveSame(topics[a].subTopics, i);
    }
  }

  // ---------------------------------------------------------------------
  // Question reducers.
  // ---------------------------------------------------------------------

  function NewQuestionId(now: nat): string {
    "q-" + NatToString(now)
  }

  /** `{ ...question, id: `q-${now}` }`: the new question's own fields, under a fresh id. */
  function Minted(question: Question, now: nat): (q: Question)
    ensures q.id == NewQuestionId(now)
    ensures q.(id := question.id) == question
  {
    question.(id := NewQuestionId(now))
  }

  /** The fields a `Partial<Question>` patch sets; an absent field keeps the old value. */
  datatype QuestionPatch = QuestionPatch(
    id: Option<string>,
    title: Option<string>,
    difficulty: Option<string>,
    problemUrl: Option<string>,
    resource: Option<string>)

  /** `{ ...q, ...patch }`. */
  function Merge(q: Question, p: QuestionPatch): (r: Question)
    ensures r.id == p.id.GetOr(q.id)
    ensures p.title.Some? ==> r.title == p.title
    ensures p.title.None? ==> r.title == q.title
    ensures p.difficulty.Some? ==> r.difficulty == p.difficulty
    ensures p.difficulty.None? ==> r.difficulty == q.difficulty
    ensures p.problemUrl.Some? ==> r.problemUrl == p.problemUrl
    ensures p.problemUrl.None? ==> r.problemUrl == q.problemUrl
    ensures p.resource.Some? ==> r.resource == p.resource
    ensures p.resource.None? ==> r.resource == q.resource
  {
    Question(
      p.id.GetOr(q.id),
      if p.title.Some? then p.title else q.title,
      if p.difficulty.Some? then p.difficulty else q.difficulty,
      if p.problemUrl.Some? then p.problemUrl else q.problemUrl,
      if p.resource.Some? then p.resource else q.resource)
  }

  /** Applying the same patch twice is applying it once; the empty patch changes nothing. */
  lemma MergeLaws(q: Question, p: QuestionPatch)
    ensures Merge(Merge(q, p), p) == Merge(q, p)
    ensures Merge(q, QuestionPatch(None, None, None, None, None)) == q
  {
  }

  /** `addQuestion`: the question, under a fresh id, at the end of every matching subtopic. */
  function QuestionAdded(topics: seq<Topic>, topicId: string, subTopicId: string, question: Question, now: nat): (r: seq<Topic>)
    ensures |r| == |topics|
    ensures forall a | 0 <= a < |topics| && topics[a].id != topicId :: r[a] == topics[a]
    ensures forall a | 0 <= a < |topics| && topics[a].id == topicId ::
      var subs, subs' := topics[a].subTopics, r[a].subTopics;
      && r[a] == topics[a].(subTopics := subs')
      && |subs'| == |subs|
      && forall b | 0 <= b < |subs| ::
        subs'[b] == if subs[b].id == subTopicId then subs[b].(questions := subs[b].questions + [Minted(question, now)]) else subs[b]
  {
    MapTopics(topics, topicId, (t: Topic) => t.(subTopics := MapSubTopics(t.subTopics, subTopicId,
      (st: SubTopic) => st.(questions := st.questions + [Minted(question, now)]))))
  }

  /** `updateQuestion`: the patch merged into every matching question of every matching subtopic. */
  function QuestionUpdated(topics: seq<Topic>, topicId: string, subTopicId: string, questionId: string, patch: QuestionPatch): (r: seq<Topic>)
    ensures |r| == |topics|
    ensures forall a | 0 <= a < |topics| && topics[a].id != topicId :: r[a] == topics[a]
    ensures forall a | 0 <= a < |topics| && topics[a].id == topicId ::
      var subs, subs' := topics[a].subTopics, r[a].subTopics;
      && r[a] == topics[a].(subTopics := subs')
      && |subs'| == |subs|
      && forall b | 0 <= b < |subs| ::
        && (subs[b].id != subTopicId ==> subs'[b] == subs[b])
        && (subs[b].id == subTopicId ==>
              var qs, qs' := subs[b].questions, subs'[b].questions;
              && subs'[b] == subs[b].(questions := qs')
              && |qs'| == |qs|
              && forall k | 0 <= k < |qs| :: qs'[k] == if qs[k].id == questionId then Merge(qs[k], patch) else qs[k])
  {
    MapTopics(topics, topicId, (t: Topic) => t.(subTopics := MapSubTopics(t.subTopics, subTopicId,
      (st: SubTopic) => st.(questions := MapQuestions(st.questions, questionId, (q: Question) => Merge(q, patch))))))
  }

  /** `deleteQuestion`: drops every question with the id from every matching subtopic. */
  function QuestionDeleted(topics: seq<Topic>, topicId: string, subTopicId: string, questionId: string): (r: seq<Topic>)
    ensures |r| == |topics|
    ensures forall a | 0 <= a < |topics| && topics[a].id != topicId :: r[a] == topics[a]
    ensures forall a | 0 <= a < |topics| && topics[a].id == topicId ::
      var subs, subs' := topics[a].subTopics, r[a].subTopics;
      && r[a] == topics[a].(subTopics := subs')
      && |subs'| == |subs|
      && forall b | 0 <= b < |subs| ::
        && (subs[b].id != subTopicId ==> subs'[b] == subs[b])
        && (subs[b].id == subTopicId ==>
              && subs'[b] == subs[b].(questions := subs'[b].questions)
              && forall q :: q in subs'[b].questions <==> q in subs[b].questions && q.id != questionId)
  {
    MapTopics(topics, topicId, (t: Topic) => t.(subTopics := MapSubTopics(t.subTopics, subTopicId,
      (st: SubTopic) => st.(questions := Filter(st.questions, (q: Question) => q.id != questionId)))))
  }

  /** Every subtopic `reorderQuestions` touches holds a question at the source index. */
  predicate CanReorderQuestions(topics: seq<Topic>, topicId: string, subTopicId: string, i: nat) {
    forall a, b | 0 <= a < |topics| && 0 <= b < |topics[a].subTopics| ::
      topics[a].id == topicId && topics[a].subTopics[b].id == subTopicId ==> i < |topics[a].subTopics[b].questions|
  }

  /** Inside every matching subtopic, the question at `i` moves to `j`. */
  function MoveQuestionsIn(subs: seq<SubTopic>, subTopicId: string, i: nat, j: nat): (r: seq<SubTopic>)
    requires forall b | 0 <= b < |subs| && subs[b].id == subTopicId :: i < |subs[b].questions|
    ensures |r| == |subs|
    ensures forall b | 0 <= b < |subs| && subs[b].id != subTopicId :: r[b] == subs[b]
    ensures forall b | 0 <= b < |subs| && subs[b].id == subTopicId ::
      var qs, qs' := subs[b].questions, r[b].questions;
      && r[b] == subs[b].(questions := qs')
      && |qs'| == |qs| && multiset(qs') == multiset(qs)
      && qs'[Landing(|qs|, j)] == qs[i]
      && RemoveAt(qs', Landing(|qs|, j)) == RemoveAt(qs, i)
  {
    seq(|subs|, b requires 0 <= b < |subs| =>
      if subs[b].id != subTopicId then subs[b] else subs[b].(questions := Move(subs[b].questions, i, j)))
  }

  /** `reorderQuestions`: the move happens in every matching subtopic of every matching topic. */
  function QuestionsReordered(topics: seq<Topic>, topicId: string, subTopicId: string, i: nat, j: nat): (r: seq<Topic>)
    requires CanReorderQuestions(topics, topicId, subTopicId, i)
    ensures |r| == |topics|
    ensures forall a | 0 <= a < |topics| && topics[a].id != topicId :: r[a] == topics[a]
    ensures forall a | 0 <= a < |topics| && topics[a].id == topicId ::
      r[a] == topics[a].(subTopics := MoveQuestionsIn(topics[a].subTopics, subTopicId, i, j))
  {
    seq(|topics|, a requires 0 <= a < |topics| =>
      if topics[a].id != topicId then topics[a]
      else topics[a].(subTopics := MoveQuestionsIn(topics[a].subTopics, subTopicId, i, j)))
  }

  /** Deleting a question just added under a fresh id gives back the topics from before. */
  lemma QuestionAddDelete(topics: seq<Topic>, topicId: string, subTopicId: string, question: Question, now: nat)
    requires forall a, b, k | 0 <= a < |topics| && 0 <= b < |topics[a].subTopics| && 0 <= k < |topics[a].subTopics[b].questions| ::
      topics[a].id == topicId && topics[a].subTopics[b].id == subTopicId ==>
        topics[a].subTopics[b].questions[k].id != NewQuestionId(now)
    ensures QuestionDeleted(QuestionAdded(topics, topicId, subTopicId, question, now), topicId, subTopicId, NewQuestionId(now)) == topics
  {
    var added := QuestionAdded(topics, topicId, subTopicId, question, now);
    var r := QuestionDeleted(added, topicId, subTopicId, NewQuestionId(now));
    var keep := (q: Question) => q.id != NewQuestionId(now);
    var made := Minted(question, now);
    forall a | 0 <= a < |topics| && topics[a].id == topicId ensures r[a] == topics[a] {
      var subs := topics[a].subTopics;
      forall b | 0 <= b < |subs| && subs[b].id == subTopicId ensures r[a].subTopics[b] == subs[b] {
        var qs := subs[b].questions;
        FilterAppend(qs, [made], keep);
        FilterAll(qs, keep);
        assert Filter([made], keep) == [] by {
          assert [made][..0] == [];
        }
      }
    }
  }

  /**
   * Updating twice with the same patch is updating once, for every patch: one
   * that changes the id leaves no question the second update matches.
   */
  lemma QuestionUpdateTwice(topics: seq<Topic>, topicId: string, subTopicId: string, questionId: string, patch: QuestionPatch)
    ensures var once := QuestionUpdated(topics, topicId, subTopicId, questionId, patch);
      QuestionUpdated(once, topicId, subTopicId, questionId, patch) == once
  {
    var once := QuestionUpdated(topics, topicId, subTopicId, questionId, patch);
    var twice := QuestionUpdated(once, topicId, subTopicId, questionId, patch);
    forall a | 0 <= a < |topics| && topics[a].id == topicId ensures twice[a] == once[a] {
      var subs := topics[a].subTopics;
      forall b | 0 <= b < |subs| && subs[b].id == subTopicId ensures twice[a].subTopics[b] == once[a].subTopics[b] {
        var qs := subs[b].questions;
        forall k | 0 <= k < |qs| && qs[k].id == questionId
          ensures twice[a].subTopics[b].questions[k] == once[a].subTopics[b].questions[k]
        {
          MergeLaws(qs[k], patch);
        }
      }
    }
  }

  /** Reordering questions onto the same index changes nothing. */
  lemma QuestionsReorderSame(topics: seq<Topic>, topicId: string, subTopicId: string, i: nat)
    requires CanReorderQuestions(topics, topicId, subTopicId, i)
    ensures QuestionsReordered(topics, topicId, subTopicId, i, i) == topics
  {
    var r := QuestionsReordered(topics, topicId, subTopicId, i, i);
    forall a | 0 <= a < |topics| && topics[a].id == topicId ensures r[a] == topics[a] {
      var subs := topics[a].subTopics;
      forall b | 0 <= b < |subs| && subs[b].id == subTopicId ensures r[a].subTopics[b] == subs[b] {
        MoveSame(subs[b].questions, i);
      }
    }
  }

  // ---------------------------------------------------------------------
  // Reordering never adds or drops a question.
  // ---------------------------------------------------------------------

  /** Taking one subtopic out of a list takes its questions out of the total. */
  lemma {:induction false} SubTopicsSizeRemove(subs: seq<SubTopic>, i: nat)
    requires i < |subs|
    ensures SubTopicsSize(subs) == SubTopicsSize(RemoveAt(subs, i)) + |subs[i].questions|
  {
    var n := |subs| - 1;
    if i == n {
      assert RemoveAt(subs, i) == subs[..n];
    } else {
      var init := subs[..n];
      assert RemoveAt(subs, i) == RemoveAt(init, i) + [subs[n]];
      SubTopicsSizeRemove(init, i);
      var r := RemoveAt(subs, i);
      assert r[..|r| - 1] == RemoveAt(init, i);
    }
  }

  /** Taking one topic out of the tree takes its questions out of the total. */
  lemma {:induction false} TreeQuestionsRemove(topics: seq<Topic>, i: nat)
    requires i < |topics|
    ensures TreeQuestions(topics) == TreeQuestions(RemoveAt(topics, i)) + SubTopicsSize(topics[i].subTopics)
  {
    var n := |topics| - 1;
    if i == n {
      assert RemoveAt(topics, i) == topics[..n];
    } else {
      var init := topics[..n];
      assert RemoveAt(topics, i) == RemoveAt(init, i) + [topics[n]];
      TreeQuestionsRemove(init, i);
      var r := RemoveAt(topics, i);
      assert r[..|r| - 1] == RemoveAt(init, i);
    }
  }

  lemma SubTopicsSizeMove(subs: seq<SubTopic>, i: nat, j: nat)
    requires i < |subs|
    ensures SubTopicsSize(Move(subs, i, j)) == SubTopicsSize(subs)
  {
    SubTopicsSizeRemove(subs, i);
    SubTopicsSizeRemove(Move(subs, i, j), Landing(|subs|, j));
  }

  lemma TreeQuestionsMove(topics: seq<Topic>, i: nat, j: nat)
    requires i < |topics|
    ensures TreeQuestions(Move(topics, i, j)) == TreeQuestions(topics)
  {
    TreeQuestionsRemove(topics, i);
    TreeQuestionsRemove(Move(topics, i, j), Landing(|topics|, j));
  }

  /** Subtopic lists whose members hold equally many questions hold equally many in total. */
  lemma {:induction false} SubTopicsSizePointwise(x: seq<SubTopic>, y: seq<SubTopic>)
    requires |x| == |y| && forall b | 0 <= b < |x| :: |x[b].questions| == |y[b].questions|
    ensures SubTopicsSize(x) == SubTopicsSize(y)
  {
    if x != [] {
      SubTopicsSizePointwise(x[..|x| - 1], y[..|y| - 1]);
    }
  }

  /** Trees whose topics hold equally many questions hold equally many in total. */
  lemma {:induction false} TreeQuestionsPointwise(x: seq<Topic>, y: seq<Topic>)
    requires |x| == |y| && forall a | 0 <= a < |x| :: SubTopicsSize(x[a].subTopics) == SubTopicsSize(y[a].subTopics)
    ensures TreeQuestions(x) == TreeQuestions(y)
  {
    if x != [] {
      TreeQuestionsPointwise(x[..|x| - 1], y[..|y| - 1]);
    }
  }

  /** Reordering a topic's subtopics keeps every topic's question count. */
  lemma SubTopicsReorderKeepsQuestions(topics: seq<Topic>, topicId: string, i: nat, j: nat)
    requires CanReorderSubTopics(topics, topicId, i)
    ensures TreeQuestions(SubTopicsReordered(topics, topicId, i, j)) == TreeQuestions(topics)
  {
    var r := SubTopicsReordered(topics, topicId, i, j);
    forall a | 0 <= a < |topics| ensures SubTopicsSize(r[a].subTopics) == SubTopicsSize(topics[a].subTopics) {
      if topics[a].id == topicId {
        SubTopicsSizeMove(topics[a].subTopics, i, j);
      }
    }
    TreeQuestionsPointwise(r, topics);
  }

  /** Reordering a subtopic's questions keeps every topic's question count. */
  lemma QuestionsReorderKeepsQuestions(topics: seq<Topic>, topicId: string, subTopicId: string, i: nat, j: nat)
    requires CanReorderQuestions(topics, topicId, subTopicId, i)
    ensures TreeQuestions(QuestionsReordered(topics, topicId, subTopicId, i, j)) == TreeQuestions(topics)
  {
    var r := QuestionsReordered(topics, topicId, subTopicId, i, j);
    forall a | 0 <= a < |topics| ensures SubTopicsSize(r[a].subTopics) == SubTopicsSize(topics[a].subTopics) {
      SubTopicsSizePointwise(r[a].subTopics, topics[a].subTopics);
    }
    TreeQuestionsPointwise(r, topics);
  }

  /** None of the three reorders changes how many questions the sheet holds. */
  lemma ReordersKeepQuestions(topics: seq<Topic>, topicId: string, subTopicId: string, i: nat, j: nat)
    ensures i < |topics| ==> TreeQuestions(TopicsReordered(topics, i, j)) == TreeQuestions(topics)
    ensures CanReorderSubTopics(topics, topicId, i) ==>
      TreeQuestions(SubTopicsReordered(topics, topicId, i, j)) == TreeQuestions(topics)
    ensures CanReorderQuestions(topics, topicId, subTopicId, i) ==>
      TreeQuestions(QuestionsReordered(topics, topicId, subTopicId, i, j)) == TreeQuestions(topics)
  {
    if i < |topics| {
      TreeQuestionsMove(topics, i, j);
    }
    if CanReorderSubTopics(topics, topicId, i) {
      SubTopicsReorderKeepsQuestions(topics, topicId, i, j);
    }
    if CanReorderQuestions(topics, topicId, subTopicId, i) {
      QuestionsReorderKeepsQuestions(topics, topicId, subTopicId, i, j);
    }
  }


  // ---------------------------------------------------------------------
  // The store.
  // ---------------------------------------------------------------------

  /** The store's state: the topic list, replaced by each action. */
  class Sheet {
    var topics: seq<Topic>

    /**
     * `topics: normalizeData()`, run when the store is created. A seed with a
     * record that has no topic throws there, so no store exists for it.
     */
    constructor (rs: seq<Record>)
      requires TopicsPresent(rs)
      ensures topics == NormalizeSpec(rs)
      ensures TreeQuestions(topics) == |rs|
    {
      var seeded := NormalizeData(rs);
      NormalizeTotal(rs);
      topics := seeded.value;
    }

    method AddTopic(title: string, now: nat)
      modifies this
      ensures topics == TopicAdded(old(topics), title, now)
    {
      topics := TopicAdded(topics, title, now);
    }

    method UpdateTopic(id: string, title: string)
      modifies this
      ensures topics == TopicUpdated(old(topics), id, title)
    {
      topics := TopicUpdated(topics, id, title);
    }

    method DeleteTopic(id: string)
      modifies this
      ensures topics == TopicDeleted(old(topics), id)
    {
      topics := TopicDeleted(topics, id);
    }

    method ToggleTopicCollapse(id: string)
      modifies this
      ensures topics == CollapseToggled(old(topics), id)
    {
      topics := CollapseToggled(topics, id);
    }

    method ReorderTopics(startIndex: nat, endIndex: nat)
      requires startIndex < |topics|
      modifies this
      ensures topics == TopicsReordered(old(topics), startIndex, endIndex)
    {
      topics := TopicsReordered(topics, startIndex, endIndex);
    }

    method AddSubTopic(topicId: string, title: string, now: nat)
      modifies this
      ensures topics == SubTopicAdded(old(topics), topicId, title, now)
    {
      topics := SubTopicAdded(topics, topicId, title, now);
    }

    method UpdateSubTopic(topicId: string, subTopicId: string, title: string)
      modifies this
      ensures topics == SubTopicUpdated(old(topics), topicId, subTopicId, title)
    {
      topics := SubTopicUpdated(topics, topicId, subTopicId, title);
    }

    method DeleteSubTopic(topicId: string, subTopicId: string)
      modifies this
      ensures topics == SubTopicDeleted(old(topics), topicId, subTopicId)
    {
      topics := SubTopicDeleted(topics, topicId, subTopicId);
    }

    method ReorderSubTopics(topicId: string, startIndex: nat, endIndex: nat)
      requires CanReorderSubTopics(topics, topicId, startIndex)
      modifies this
      ensures topics == SubTopicsReordered(old(topics), topicId, startIndex, endIndex)
    {
      topics := SubTopicsReordered(topics, topicId, startIndex, endIndex);
    }

    method AddQuestion(topicId: string, subTopicId: string, question: Question, now: nat)
      modifies this
      ensures topics == QuestionAdded(old(topics), topicId, subTopicId, question, now)
    {
      topics := QuestionAdded(topics, topicId, subTopicId, question, now);
    }

    method UpdateQuestion(topicId: string, subTopicId: string, questionId: string, patch: QuestionPatch)
      modifies this
      ensures topics == QuestionUpdated(old(topics), topicId, subTopicId, questionId, patch)
    {
      topics := QuestionUpdated(topics, topicId, subTopicId, questionId, patch);
    }

    method DeleteQuestion(topicId: string, subTopicId: string, questionId: string)
      modifies this
      ensures topics == QuestionDeleted(old(topics), topicId, subTopicId, questionId)
    {
      topics := QuestionDeleted(topics, topicId, subTopicId, questionId);
    }

    method ReorderQuestions(topicId: string, subTopicId: string, startIndex: nat, endIndex: nat)
      requires CanReorderQuestions(topics, topicId, subTopicId, startIndex)
      modifies this
      ensures topics == QuestionsReordered(old(topics), topicId, subTopicId, startIndex, endIndex)
    {
      topics := QuestionsReordered(topics, topicId, subTopicId, startIndex, endIndex);
    }
  }
}

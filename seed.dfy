/**
 * The seed: the flat list of question records both stores group into a
 * Topic -> Subtopic -> Question tree, and the grouping itself stated once.
 * Topics come in the order their title first occurs, subtopics within a topic
 * in the order their title first occurs among that topic's records, and each
 * (topic, subtopic) pair holds its records in input order.
 */
module Seed {
  import opened Wrappers
  import opened Seqs

  /** The `questionId` object nested in a record. */
  datatype QuestionRef = QuestionRef(name: Option<string>, difficulty: Option<string>, problemUrl: Option<string>)

  /**
   * One entry of `data.questions`. `id` is the record's `_id`; `completed` is
   * `Some(b)` when the field holds the boolean `b` and `None` otherwise. The
   * subtopic keeps `undefined` and `null` apart: one of the stores compares
   * it with `===`.
   */
  datatype Record = Record(
    id: string,
    topic: Option<string>,
    subTopic: Nullable<string>,
    title: Option<string>,
    questionId: Option<QuestionRef>,
    resource: Option<string>,
    completed: Option<bool>)

  const UntitledTopic: string := "Untitled Topic"
  const GeneralSubtopic: string := "General"

  /** `q.topic ?? "Untitled Topic"` */
  function TopicOf(r: Record): string {
    r.topic.GetOr(UntitledTopic)
  }

  /** `q.subTopic ?? "General"` */
  function SubOf(r: Record): string {
    r.subTopic.GetOr(GeneralSubtopic)
  }

  function TopicNames(rs: seq<Record>): (ns: seq<string>)
    ensures |ns| == |rs| && forall k | 0 <= k < |rs| :: ns[k] == TopicOf(rs[k])
  {
    seq(|rs|, k requires 0 <= k < |rs| => TopicOf(rs[k]))
  }

  function SubNames(rs: seq<Record>): (ns: seq<string>)
    ensures |ns| == |rs| && forall k | 0 <= k < |rs| :: ns[k] == SubOf(rs[k])
  {
    seq(|rs|, k requires 0 <= k < |rs| => SubOf(rs[k]))
  }

  /** The records of topic `t`, in input order. */
  function InTopic(rs: seq<Record>, t: string): (r: seq<Record>)
    ensures |r| <= |rs|
  {
    if rs == [] then []
    else
      var n := |rs| - 1;
      var init := InTopic(rs[..n], t);
      if TopicOf(rs[n]) == t then init + [rs[n]] else init
  }

  /** The records of subtopic `s` of topic `t`, in input order. */
  function Matching(rs: seq<Record>, t: string, s: string): (r: seq<Record>)
    ensures |r| <= |rs|
  {
    if rs == [] then []
    else
      var n := |rs| - 1;
      var init := Matching(rs[..n], t, s);
      if TopicOf(rs[n]) == t && SubOf(rs[n]) == s then init + [rs[n]] else init
  }

  lemma {:induction false} InTopicMembers(rs: seq<Record>, t: string)
    ensures forall x :: x in InTopic(rs, t) <==> x in rs && TopicOf(x) == t
  {
    if rs != [] {
      var n := |rs| - 1;
      assert rs == rs[..n] + [rs[n]];
      InTopicMembers(rs[..n], t);
    }
  }

  lemma {:induction false} MatchingMembers(rs: seq<Record>, t: string, s: string)
    ensures forall x :: x in Matching(rs, t, s) <==> x in rs && TopicOf(x) == t && SubOf(x) == s
  {
    if rs != [] {
      var n := |rs| - 1;
      assert rs == rs[..n] + [rs[n]];
      MatchingMembers(rs[..n], t, s);
    }
  }

  /** The topic titles in first-seen order: the keys of the outer `Map`. */
  function TopicTitles(rs: seq<Record>): seq<string> {
    Dedup(TopicNames(rs))
  }

  /** The subtopic titles of topic `t` in first-seen order: the keys of its inner `Map`. */
  function SubTitles(rs: seq<Record>, t: string): seq<string> {
    Dedup(SubNames(InTopic(rs, t)))
  }

  /** One more record appends its topic to the topic order exactly when the topic is new. */
  lemma TopicTitlesSnoc(rs: seq<Record>, r: Record)
    ensures TopicTitles(rs + [r]) == if TopicOf(r) in TopicTitles(rs) then TopicTitles(rs) else TopicTitles(rs) + [TopicOf(r)]
  {
    assert (rs + [r])[..|rs|] == rs;
    assert TopicNames(rs + [r]) == TopicNames(rs) + [TopicOf(r)];
    DedupSnoc(TopicNames(rs), TopicOf(r));
  }

  /**
   * One more record appends its subtopic to its topic's subtopic order exactly
   * when the subtopic is new there, and leaves the other topics alone.
   */
  lemma SubTitlesSnoc(rs: seq<Record>, r: Record, t: string)
    ensures SubTitles(rs + [r], t) ==
      if t != TopicOf(r) || SubOf(r) in SubTitles(rs, t) then SubTitles(rs, t) else SubTitles(rs, t) + [SubOf(r)]
  {
    assert (rs + [r])[..|rs|] == rs;
    if t == TopicOf(r) {
      assert InTopic(rs + [r], t) == InTopic(rs, t) + [r];
      assert SubNames(InTopic(rs + [r], t)) == SubNames(InTopic(rs, t)) + [SubOf(r)];
      DedupSnoc(SubNames(InTopic(rs, t)), SubOf(r));
    } else {
      assert InTopic(rs + [r], t) == InTopic(rs, t);
    }
  }

  /** One more record joins its own group and no other. */
  lemma MatchingSnoc(rs: seq<Record>, r: Record, t: string, s: string)
    ensures Matching(rs + [r], t, s) ==
      if t == TopicOf(r) && s == SubOf(r) then Matching(rs, t, s) + [r] else Matching(rs, t, s)
  {
    assert (rs + [r])[..|rs|] == rs;
  }

  /** A title is listed exactly when some record carries it. */
  lemma TitlesMeaning(rs: seq<Record>, t: string, s: string)
    ensures t in TopicTitles(rs) <==> InTopic(rs, t) != []
    ensures s in SubTitles(rs, t) <==> Matching(rs, t, s) != []
  {
    InTopicMembers(rs, t);
    MatchingMembers(rs, t, s);
    if t in TopicNames(rs) {
      var k :| 0 <= k < |rs| && TopicNames(rs)[k] == t;
      assert rs[k] in InTopic(rs, t);
    }
    if InTopic(rs, t) != [] {
      var x := InTopic(rs, t)[0];
      assert x in InTopic(rs, t);
      var k :| 0 <= k < |rs| && rs[k] == x;
      assert TopicNames(rs)[k] == t;
    }
    var it := InTopic(rs, t);
    if s in SubNames(it) {
      var k :| 0 <= k < |it| && SubNames(it)[k] == s;
      assert it[k] in it;
      assert it[k] in Matching(rs, t, s);
    }
    if Matching(rs, t, s) != [] {
      var x := Matching(rs, t, s)[0];
      assert x in Matching(rs, t, s);
      assert x in it;
      var k :| 0 <= k < |it| && it[k] == x;
      assert SubNames(it)[k] == s;
    }
  }

  /** The records before position `n` form a prefix of every group. */
  lemma {:induction false} MatchingPrefix(rs: seq<Record>, n: nat, t: string, s: string)
    requires n <= |rs|
    ensures var p := Matching(rs[..n], t, s);
      |p| <= |Matching(rs, t, s)| && Matching(rs, t, s)[..|p|] == p
  {
    if n < |rs| {
      var m := |rs| - 1;
      var init := rs[..m];
      assert init[..n] == rs[..n];
      MatchingPrefix(init, n, t, s);
      var p, q := Matching(rs[..n], t, s), Matching(init, t, s);
      assert Matching(rs, t, s)[..|q|] == q;
      assert q[..|p|] == p;
    } else {
      assert rs[..n] == rs;
    }
  }

  /**
   * Every record sits in its own group, at the position given by the number
   * of earlier records with the same topic and subtopic.
   */
  lemma Locate(rs: seq<Record>, k: nat)
    requires k < |rs|
    ensures var t, s, j := TopicOf(rs[k]), SubOf(rs[k]), |Matching(rs[..k], TopicOf(rs[k]), SubOf(rs[k]))|;
      && t in TopicTitles(rs) && s in SubTitles(rs, t)
      && j < |Matching(rs, t, s)| && Matching(rs, t, s)[j] == rs[k]
  {
    var t, s := TopicOf(rs[k]), SubOf(rs[k]);
    assert rs[..k + 1] == rs[..k] + [rs[k]];
    MatchingSnoc(rs[..k], rs[k], t, s);
    MatchingPrefix(rs, k + 1, t, s);
    TitlesMeaning(rs, t, s);
  }

  lemma {:induction false} InTopicCount(rs: seq<Record>, t: string)
    ensures |InTopic(rs, t)| == multiset(TopicNames(rs))[t]
  {
    if rs != [] {
      var n := |rs| - 1;
      InTopicCount(rs[..n], t);
      assert TopicNames(rs) == TopicNames(rs[..n]) + [TopicOf(rs[n])];
    }
  }

  lemma {:induction false} MatchingCount(rs: seq<Record>, t: string, s: string)
    ensures |Matching(rs, t, s)| == multiset(SubNames(InTopic(rs, t)))[s]
  {
    if rs != [] {
      var n := |rs| - 1;
      MatchingCount(rs[..n], t, s);
      var it := InTopic(rs[..n], t);
      if TopicOf(rs[n]) == t {
        assert SubNames(it + [rs[n]]) == SubNames(it) + [SubOf(rs[n])];
      }
    }
  }

  /** Total size of the groups of topic `t` named in `ss`. */
  function GroupSize(rs: seq<Record>, t: string, ss: seq<string>): nat {
    if ss == [] then 0 else GroupSize(rs, t, ss[..|ss| - 1]) + |Matching(rs, t, ss[|ss| - 1])|
  }

  /** Total size of all groups of the topics named in `ts`. */
  function TreeSize(rs: seq<Record>, ts: seq<string>): nat {
    if ts == [] then 0 else TreeSize(rs, ts[..|ts| - 1]) + GroupSize(rs, ts[|ts| - 1], SubTitles(rs, ts[|ts| - 1]))
  }

  lemma {:induction false} GroupSizeCounts(rs: seq<Record>, t: string, ss: seq<string>)
    ensures GroupSize(rs, t, ss) == SumCounts(SubNames(InTopic(rs, t)), ss)
  {
    if ss != [] {
      GroupSizeCounts(rs, t, ss[..|ss| - 1]);
      MatchingCount(rs, t, ss[|ss| - 1]);
    }
  }

  lemma {:induction false} TreeSizeCounts(rs: seq<Record>, ts: seq<string>)
    ensures TreeSize(rs, ts) == SumCounts(TopicNames(rs), ts)
  {
    if ts != [] {
      var t := ts[|ts| - 1];
      TreeSizeCounts(rs, ts[..|ts| - 1]);
      GroupSizeCounts(rs, t, SubTitles(rs, t));
      DedupCountsSum(SubNames(InTopic(rs, t)));
      InTopicCount(rs, t);
    }
  }

  /** Grouping keeps every record exactly once: the groups together hold as many records as the input. */
  lemma GroupingTotal(rs: seq<Record>)
    ensures TreeSize(rs, TopicTitles(rs)) == |rs|
  {
    TreeSizeCounts(rs, TopicTitles(rs));
    DedupCountsSum(TopicNames(rs));
  }
}

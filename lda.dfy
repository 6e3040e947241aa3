/** The topic-model side: `MyLda` assigns each document the topics the
    topic model reports for it, under a probability threshold, and keeps a
    coherence evaluator that it builds on first use. Model fitting and
    inference are library code; the model takes them as functions. */
module Lda {
  import opened Common
  import opened Dictionary

  /** The (topic, probability) pairs the topic model reports for one
      document, in the model's order. */
  type TopicPairs = seq<(int, real)>

  // ---------------------------------------------------------------------
  // The topics kept for one document.
  // ---------------------------------------------------------------------

  /** The topics of the pairs whose probability reaches the threshold. */
  function TopicsAbove(pairs: TopicPairs, threshold: real): seq<int>
  {
    if pairs == [] then []
    else (if pairs[0].1 >= threshold then [pairs[0].0] else []) + TopicsAbove(pairs[1..], threshold)
  }

  /** The topics kept for a document: the topic of the first pair the
      model reports, whatever its probability, then the topics of the
      later pairs whose probability reaches the threshold. */
  function KeptTopics(pairs: TopicPairs, threshold: real): seq<int>
  {
    if pairs == [] then [] else [pairs[0].0] + TopicsAbove(pairs[1..], threshold)
  }

  /** The rule of the loop of `get_mappings` over the first `m` pairs:
      pair `j` is kept when its probability reaches the threshold or
      `j == 0`. */
  function SelectedPrefix(pairs: TopicPairs, threshold: real, m: nat): seq<int>
    requires m <= |pairs|
  {
    if m == 0 then []
    else
      SelectedPrefix(pairs, threshold, m - 1)
        + (if pairs[m - 1].1 >= threshold || m - 1 == 0 then [pairs[m - 1].0] else [])
  }

  lemma {:induction false} TopicsAboveSnoc(pairs: TopicPairs, p: (int, real), threshold: real)
    ensures TopicsAbove(pairs + [p], threshold)
         == TopicsAbove(pairs, threshold) + (if p.1 >= threshold then [p.0] else [])
  {
    if pairs != [] {
      assert (pairs + [p])[1..] == pairs[1..] + [p];
      TopicsAboveSnoc(pairs[1..], p, threshold);
    }
  }

  lemma {:induction false} SelectedPrefixIsKept(pairs: TopicPairs, threshold: real, m: nat)
    requires 1 <= m <= |pairs|
    ensures SelectedPrefix(pairs, threshold, m) == [pairs[0].0] + TopicsAbove(pairs[1..m], threshold)
  {
    if m > 1 {
      SelectedPrefixIsKept(pairs, threshold, m - 1);
      assert pairs[1..m] == pairs[1..m - 1] + [pairs[m - 1]];
      TopicsAboveSnoc(pairs[1..m - 1], pairs[m - 1], threshold);
    }
  }

  /** The loop's rule keeps exactly `KeptTopics`. */
  lemma SelectedIsKept(pairs: TopicPairs, threshold: real)
    ensures SelectedPrefix(pairs, threshold, |pairs|) == KeptTopics(pairs, threshold)
  {
    if pairs != [] {
      SelectedPrefixIsKept(pairs, threshold, |pairs|);
      assert pairs[1..|pairs|] == pairs[1..];
    }
  }

  lemma {:induction false} TopicsAboveMembers(pairs: TopicPairs, threshold: real, t: int)
    ensures t in TopicsAbove(pairs, threshold)
        <==> exists j :: 0 <= j < |pairs| && pairs[j].0 == t && pairs[j].1 >= threshold
  {
    if pairs != [] {
      TopicsAboveMembers(pairs[1..], threshold, t);
      if exists j :: 0 <= j < |pairs| && pairs[j].0 == t && pairs[j].1 >= threshold {
        var j :| 0 <= j < |pairs| && pairs[j].0 == t && pairs[j].1 >= threshold;
        if j > 0 {
          assert pairs[1..][j - 1] == pairs[j];
        }
      }
      if exists j :: 0 <= j < |pairs[1..]| && pairs[1..][j].0 == t && pairs[1..][j].1 >= threshold {
        var j :| 0 <= j < |pairs[1..]| && pairs[1..][j].0 == t && pairs[1..][j].1 >= threshold;
        assert pairs[j + 1] == pairs[1..][j];
      }
    }
  }

  /** A document is given at least one topic exactly when the model
      reports at least one pair; the first topic is that of the first
      pair; and every other topic kept comes from a pair whose
      probability reaches the threshold. Every such pair's topic is kept. */
  lemma KeptTopicsFacts(pairs: TopicPairs, threshold: real)
    ensures KeptTopics(pairs, threshold) != [] <==> pairs != []
    ensures pairs != [] ==> KeptTopics(pairs, threshold)[0] == pairs[0].0
    ensures forall t :: t in KeptTopics(pairs, threshold) <==>
              (pairs != [] && t == pairs[0].0)
              || exists j :: 1 <= j < |pairs| && pairs[j].0 == t && pairs[j].1 >= threshold
  {
    forall t
      ensures t in KeptTopics(pairs, threshold) <==>
              (pairs != [] && t == pairs[0].0)
              || exists j :: 1 <= j < |pairs| && pairs[j].0 == t && pairs[j].1 >= threshold
    {
      if pairs != [] {
        TopicsAboveMembers(pairs[1..], threshold, t);
        if exists j :: 1 <= j < |pairs| && pairs[j].0 == t && pairs[j].1 >= threshold {
          var j :| 1 <= j < |pairs| && pairs[j].0 == t && pairs[j].1 >= threshold;
          assert pairs[1..][j - 1] == pairs[j];
        }
        if exists j :: 0 <= j < |pairs[1..]| && pairs[1..][j].0 == t && pairs[1..][j].1 >= threshold {
          var j :| 0 <= j < |pairs[1..]| && pairs[1..][j].0 == t && pairs[1..][j].1 >= threshold;
          assert pairs[j + 1] == pairs[1..][j];
        }
      }
    }
  }

  /** The fallback keeps the first pair the model reports, not the most
      probable one: here topic 1 is far more probable, yet at threshold
      0.95 only topic 0 is kept. */
  lemma FirstPairIsTheFallback()
    ensures KeptTopics([(0, 0.05), (1, 0.9)], 0.95) == [0]
  {
    assert TopicsAbove([(1, 0.9)], 0.95) == [];
  }

  // ---------------------------------------------------------------------
  // The two maps of a topic assignment.
  // ---------------------------------------------------------------------

  /** How often document `i` is listed under topic `t`. */
  ghost function Listed(topic2ids: map<int, seq<nat>>, t: int, i: nat): nat {
    if t in topic2ids then multiset(topic2ids[t])[i] else 0
  }

  /** `id2topics` holds the kept topics of every document that has any. */
  ghost predicate TopicsById(kept: seq<seq<int>>, id2topics: map<nat, seq<int>>) {
    && (forall i: nat :: i in id2topics <==> i < |kept| && kept[i] != [])
    && (forall i :: 0 <= i < |kept| && i in id2topics ==> id2topics[i] == kept[i])
  }

  /** Every list of `topic2ids` is non-empty, in ascending document
      order, and names only the first `n` documents. */
  ghost predicate IdListsBelow(n: nat, topic2ids: map<int, seq<nat>>) {
    && (forall t :: t in topic2ids ==> topic2ids[t] != [] && NonDecreasing(topic2ids[t]))
    && (forall t, k :: t in topic2ids && 0 <= k < |topic2ids[t]| ==> topic2ids[t][k] < n)
  }

  /** `topic2ids[t]` lists every document once per time it keeps `t`. */
  ghost predicate ListedAsKept(kept: seq<seq<int>>, topic2ids: map<int, seq<nat>>) {
    forall t, i :: 0 <= i < |kept| ==> Listed(topic2ids, t, i) == multiset(kept[i])[t]
  }

  /** `topic2ids` and `id2topics` record the kept topics `kept[i]` of each
      document `i`: `id2topics` holds them for every document that has
      any; `topic2ids[t]` lists, in ascending document order, every
      document once per time it keeps `t`. */
  ghost predicate TopicMaps(kept: seq<seq<int>>, topic2ids: map<int, seq<nat>>, id2topics: map<nat, seq<int>>) {
    && TopicsById(kept, id2topics)
    && IdListsBelow(|kept|, topic2ids)
    && ListedAsKept(kept, topic2ids)
  }

  /** A document is listed under a topic exactly when it keeps that topic. */
  lemma TopicMembership(kept: seq<seq<int>>, topic2ids: map<int, seq<nat>>, id2topics: map<nat, seq<int>>, t: int, i: nat)
    requires TopicMaps(kept, topic2ids, id2topics) && i < |kept|
    ensures (t in topic2ids && i in topic2ids[t]) <==> (i in id2topics && t in id2topics[i])
  {
    assert Listed(topic2ids, t, i) == multiset(kept[i])[t];
  }

  lemma TopicMapsNewDocument(kept: seq<seq<int>>, topic2ids: map<int, seq<nat>>, id2topics: map<nat, seq<int>>)
    requires TopicMaps(kept, topic2ids, id2topics)
    ensures TopicMaps(kept + [[]], topic2ids, id2topics)
  {
    var kept' := kept + [[]];
    forall t, i | 0 <= i < |kept'|
      ensures Listed(topic2ids, t, i) == multiset(kept'[i])[t]
    {
      if i == |kept| {
        if t in topic2ids {
          assert i !in topic2ids[t];
        }
      } else {
        assert kept'[i] == kept[i];
      }
    }
  }

  lemma KeepById(prior: seq<seq<int>>, current: seq<int>, id2topics: map<nat, seq<int>>, t: int)
    requires TopicsById(prior + [current], id2topics)
    ensures TopicsById(prior + [current + [t]],
              id2topics[|prior| := (if |prior| in id2topics then id2topics[|prior|] else []) + [t]])
  {
    var i := |prior|;
    assert (prior + [current])[i] == current;
    assert forall d :: 0 <= d < i ==> (prior + [current + [t]])[d] == (prior + [current])[d];
  }

  lemma KeepIdList(ids: seq<nat>, i: nat)
    requires NonDecreasing(ids) && forall k :: 0 <= k < |ids| ==> ids[k] < i + 1
    ensures NonDecreasing(ids + [i]) && forall k :: 0 <= k < |ids + [i]| ==> (ids + [i])[k] < i + 1
  {
    forall p, q | 0 <= p < q < |ids + [i]|
      ensures (ids + [i])[p] <= (ids + [i])[q]
    {
      if q == |ids| {
        assert (ids + [i])[p] == ids[p];
      }
    }
  }

  lemma KeepIdLists(n: nat, topic2ids: map<int, seq<nat>>, t: int)
    requires n > 0 && IdListsBelow(n, topic2ids)
    ensures IdListsBelow(n, topic2ids[t := (if t in topic2ids then topic2ids[t] else []) + [n - 1]])
  {
    KeepIdList(if t in topic2ids then topic2ids[t] else [], n - 1);
  }

  lemma KeepListed(prior: seq<seq<int>>, current: seq<int>, topic2ids: map<int, seq<nat>>, t: int)
    requires ListedAsKept(prior + [current], topic2ids)
    ensures ListedAsKept(prior + [current + [t]],
              topic2ids[t := (if t in topic2ids then topic2ids[t] else []) + [|prior|]])
  {
    var i := |prior|;
    var before := prior + [current];
    var after := prior + [current + [t]];
    var ids := if t in topic2ids then topic2ids[t] else [];
    var t2i := topic2ids[t := ids + [i]];
    forall t', d | 0 <= d < |after|
      ensures Listed(t2i, t', d) == multiset(after[d])[t']
    {
      assert Listed(topic2ids, t', d) == multiset(before[d])[t'];
      if d == i {
        assert before[d] == current && after[d] == current + [t];
        assert multiset(current + [t]) == multiset(current) + multiset{t};
      } else {
        assert after[d] == before[d];
      }
      if t' == t {
        assert multiset(ids + [i]) == multiset(ids) + multiset{i};
      }
    }
  }

  /** Keeping topic `t` for the last document appends it to that
      document's list and the document to the topic's list. */
  lemma TopicMapsKeep(prior: seq<seq<int>>, current: seq<int>,
                      topic2ids: map<int, seq<nat>>, id2topics: map<nat, seq<int>>, t: int)
    requires TopicMaps(prior + [current], topic2ids, id2topics)
    ensures TopicMaps(prior + [current + [t]],
              topic2ids[t := (if t in topic2ids then topic2ids[t] else []) + [|prior|]],
              id2topics[|prior| := (if |prior| in id2topics then id2topics[|prior|] else []) + [t]])
  {
    KeepById(prior, current, id2topics, t);
    KeepIdLists(|prior| + 1, topic2ids, t);
    KeepListed(prior, current, topic2ids, t);
  }

  /** The inner loop of `get_mappings`: records the topics kept for
      document `|prior|`, whose topic pairs are `topicPairs`. */
  method AddDocument(ghost prior: seq<seq<int>>, i: nat, topicPairs: TopicPairs, threshold: real,
                     topic2ids: map<int, seq<nat>>, id2topics: map<nat, seq<int>>)
    returns (topic2ids': map<int, seq<nat>>, id2topics': map<nat, seq<int>>)
    requires i == |prior| && TopicMaps(prior, topic2ids, id2topics)
    ensures TopicMaps(prior + [KeptTopics(topicPairs, threshold)], topic2ids', id2topics')
  {
    TopicMapsNewDocument(prior, topic2ids, id2topics);
    topic2ids', id2topics' := topic2ids, id2topics;
    for j := 0 to |topicPairs|
      invariant TopicMaps(prior + [SelectedPrefix(topicPairs, threshold, j)], topic2ids', id2topics')
    {
      var (topic, prob) := topicPairs[j];
      if prob >= threshold || j == 0 {
        TopicMapsKeep(prior, SelectedPrefix(topicPairs, threshold, j), topic2ids', id2topics', topic);
        topic2ids' := topic2ids'[topic := (if topic in topic2ids' then topic2ids'[topic] else []) + [i]];
        id2topics' := id2topics'[i := (if i in id2topics' then id2topics'[i] else []) + [topic]];
      }
    }
    SelectedIsKept(topicPairs, threshold);
  }

  // ---------------------------------------------------------------------
  // The class.
  // ---------------------------------------------------------------------

  /** A coherence evaluator, recorded by what it is built from: the
      corpus, the dictionary and the coherence measure. */
  datatype CoherenceModel = CoherenceModel(corpus: seq<Bow>, dictionary: seq<string>, coherence: string)

  /** The topic model over a dictionary. `model` is the fitted model's
      per-document topic distribution. `coherenceModelsBuilt` counts the
      evaluators built so far. */
  class MyLda {
    const numTopics: int
    const topicThreshold: real
    const myDictionary: MyDictionary
    const model: Bow -> TopicPairs
    var topic2ids: map<int, seq<nat>>
    var id2topics: map<nat, seq<int>>
    var coherenceModel: Option<CoherenceModel>
    ghost var coherenceModelsBuilt: nat

    /** The topics kept for every document, in document order. */
    ghost function Kept(): (r: seq<seq<int>>)
      ensures |r| == |myDictionary.doc2bows|
    {
      KeptUpTo(|myDictionary.doc2bows|)
    }

    /** The topics kept for the first `n` documents. */
    ghost function KeptUpTo(n: nat): (r: seq<seq<int>>)
      requires n <= |myDictionary.doc2bows|
      ensures |r| == n
    {
      seq(n, i requires 0 <= i < n => KeptTopics(model(myDictionary.doc2bows[i]), topicThreshold))
    }

    /** The evaluator `get_coherence` builds. */
    function UMass(): CoherenceModel {
      CoherenceModel(myDictionary.doc2bows, myDictionary.dictionary, "u_mass")
    }

    ghost predicate Valid()
      reads this
    {
      && TopicMaps(Kept(), topic2ids, id2topics)
      && coherenceModelsBuilt == (if coherenceModel.Some? then 1 else 0)
      && (coherenceModel.Some? ==> coherenceModel.value == UMass())
    }

    /** `model` stands for the topic model fitted on the dictionary's
        corpus with `numTopics` topics. */
    constructor (myDictionary: MyDictionary, numTopics: int, topicThreshold: real, model: Bow -> TopicPairs)
      ensures Valid()
      ensures this.myDictionary == myDictionary && this.numTopics == numTopics
      ensures this.topicThreshold == topicThreshold && this.model == model
      ensures coherenceModel == None
    {
      this.numTopics := numTopics;
      this.topicThreshold := topicThreshold;
      this.myDictionary := myDictionary;
      this.model := model;
      new;
      topic2ids, id2topics := GetMappings();
      coherenceModel := None;
      coherenceModelsBuilt := 0;
    }

    /** Both maps of the topic assignment, built in one pass over the
        documents and, for each, over the pairs the model reports. */
    method GetMappings() returns (topic2ids: map<int, seq<nat>>, id2topics: map<nat, seq<int>>)
      ensures TopicMaps(Kept(), topic2ids, id2topics)
    {
      topic2ids, id2topics := map[], map[];
      var doc2bows := myDictionary.doc2bows;
      for i := 0 to |doc2bows|
        invariant TopicMaps(KeptUpTo(i), topic2ids, id2topics)
      {
        var topicPairs := model(doc2bows[i]);
        topic2ids, id2topics := AddDocument(KeptUpTo(i), i, topicPairs, topicThreshold, topic2ids, id2topics);
        assert KeptUpTo(i) + [KeptTopics(topicPairs, topicThreshold)] == KeptUpTo(i + 1);
      }
    }

    /** What the two maps say about document `i`: it has topics exactly
        when the model reports a pair for it, its first topic is that of
        the first pair, and it is listed under exactly its own topics. */
    lemma DocumentTopics(i: nat)
      requires Valid() && i < |myDictionary.doc2bows|
      ensures i in id2topics <==> model(myDictionary.doc2bows[i]) != []
      ensures i in id2topics ==> id2topics[i][0] == model(myDictionary.doc2bows[i])[0].0
      ensures forall t :: (t in topic2ids && i in topic2ids[t]) <==> (i in id2topics && t in id2topics[i])
    {
      KeptTopicsFacts(model(myDictionary.doc2bows[i]), topicThreshold);
      forall t
        ensures (t in topic2ids && i in topic2ids[t]) <==> (i in id2topics && t in id2topics[i])
      {
        TopicMembership(Kept(), topic2ids, id2topics, t, i);
      }
    }

    /** The coherence score. The evaluator is built on the first call and
        reused afterwards; `score` stands for its `get_coherence`. */
    method GetCoherence(score: CoherenceModel -> real) returns (c: real)
      requires Valid()
      modifies this`coherenceModel, this`coherenceModelsBuilt
      ensures Valid()
      ensures coherenceModel == Some(UMass()) && coherenceModelsBuilt == 1
      ensures old(coherenceModel).Some? ==> unchanged(this)
      ensures c == score(UMass())
    {
      if coherenceModel.None? {
        coherenceModel := Some(UMass());
        coherenceModelsBuilt := coherenceModelsBuilt + 1;
      }
      c := score(coherenceModel.value);
    }
  }
}

/** The weighting and clustering side: `MyTfidf` turns the weighting
    model's sparse vectors into dense ones, clusters them, and ranks the
    terms of a cluster. The weighting model and the clustering fit are
    library code; the model takes them as functions. */
module Tfidf {
  import opened Common
  import opened Dictionary

  // ---------------------------------------------------------------------
  // Dense materialisation of a sparse vector.
  // ---------------------------------------------------------------------

  /** Every id of `pairs` indexes a vector of `size` entries. */
  ghost predicate IdsBelow(pairs: Sparse, size: nat) {
    forall j :: 0 <= j < |pairs| ==> pairs[j].0 < size
  }

  /** A zero vector of `size` entries after `vector[id] = weight` for each
      pair in turn. */
  function Dense(pairs: Sparse, size: nat): (r: seq<real>)
    requires IdsBelow(pairs, size)
    ensures |r| == size
  {
    if pairs == [] then seq(size, _ => 0.0)
    else
      var n := |pairs| - 1;
      Dense(pairs[..n], size)[pairs[n].0 := pairs[n].1]
  }

  /** Pair `j` is the last one with id `k`. */
  ghost predicate LastPairFor(pairs: Sparse, k: nat, j: int) {
    0 <= j < |pairs| && pairs[j].0 == k
    && forall j' :: j < j' < |pairs| ==> pairs[j'].0 != k
  }

  /** Entry `k` of the dense vector is the weight of the last pair with id
      `k`, and zero when no pair has that id. */
  lemma {:induction false} DenseAt(pairs: Sparse, size: nat, k: nat)
    requires IdsBelow(pairs, size) && k < size
    ensures (forall j :: 0 <= j < |pairs| ==> pairs[j].0 != k) ==> Dense(pairs, size)[k] == 0.0
    ensures forall j :: LastPairFor(pairs, k, j) ==> Dense(pairs, size)[k] == pairs[j].1
  {
    if forall j :: 0 <= j < |pairs| ==> pairs[j].0 != k {
      DenseAbsent(pairs, size, k);
    }
    forall j | LastPairFor(pairs, k, j)
      ensures Dense(pairs, size)[k] == pairs[j].1
    {
      DenseLast(pairs, size, k, j);
    }
  }

  lemma {:induction false} DenseAbsent(pairs: Sparse, size: nat, k: nat)
    requires IdsBelow(pairs, size) && k < size
    requires forall j :: 0 <= j < |pairs| ==> pairs[j].0 != k
    ensures Dense(pairs, size)[k] == 0.0
  {
    if pairs != [] {
      DenseAbsent(pairs[..|pairs| - 1], size, k);
    }
  }

  lemma {:induction false} DenseLast(pairs: Sparse, size: nat, k: nat, j: nat)
    requires IdsBelow(pairs, size) && k < size && LastPairFor(pairs, k, j)
    ensures Dense(pairs, size)[k] == pairs[j].1
  {
    var n := |pairs| - 1;
    if j < n {
      assert pairs[n].0 != k;
      assert LastPairFor(pairs[..n], k, j);
      DenseLast(pairs[..n], size, k, j);
    }
  }

  // ---------------------------------------------------------------------
  // Ranking term ids by weight, as a stable descending sort does.
  // ---------------------------------------------------------------------

  /** In a stable sort of the ids 0, 1, ... by descending weight, id `a`
      ends up before id `b`: a higher weight, or the same weight and a
      lower id. */
  ghost predicate Precedes(w: seq<real>, a: nat, b: nat) {
    a < |w| && b < |w| && (w[a] > w[b] || (w[a] == w[b] && a < b))
  }

  /** `order` is the list of all ids of `w`, each once, sorted as a stable
      descending sort by weight sorts them. */
  ghost predicate IsRanking(w: seq<real>, order: seq<nat>) {
    && multiset(order) == multiset(Range(|w|))
    && forall i, j :: 0 <= i < j < |order| ==> Precedes(w, order[i], order[j])
  }

  method Swap(a: array<nat>, i: nat, j: nat)
    requires i < a.Length && j < a.Length
    modifies a
    ensures a[i] == old(a[j]) && a[j] == old(a[i])
    ensures forall k :: 0 <= k < a.Length && k != i && k != j ==> a[k] == old(a[k])
    ensures multiset(a[..]) == old(multiset(a[..]))
  {
    a[i], a[j] := a[j], a[i];
  }

  /** The ids 0, 1, ..., |w| - 1 sorted in place by descending weight with
      a stable insertion sort that compares weights only. */
  method RankByWeight(w: seq<real>) returns (order: seq<nat>)
    ensures IsRanking(w, order)
  {
    var n := |w|;
    var a := new nat[n](k => k);
    assert a[..] == Range(n);
    for i := 0 to n
      invariant a.Length == n
      invariant SortedBelow(w, a[..], i)
    {
      InsertNext(w, a, i);
    }
    order := a[..];
  }

  /** The state of the insertion sort before it inserts id `i`: the first
      `i` places hold the ids below `i` in ranking order, and every later
      place `p` still holds id `p`. */
  ghost predicate SortedBelow(w: seq<real>, a: seq<nat>, i: nat) {
    && |a| == |w| && i <= |a|
    && multiset(a) == multiset(Range(|a|))
    && (forall p :: 0 <= p < i ==> a[p] < i)
    && (forall p :: i <= p < |a| ==> a[p] == p)
    && (forall p, q :: 0 <= p < q < i ==> Precedes(w, a[p], a[q]))
  }

  /** One turn of the insertion sort: id `i` moves left past every id of
      lower weight. */
  method InsertNext(w: seq<real>, a: array<nat>, i: nat)
    requires i < a.Length && SortedBelow(w, a[..], i)
    modifies a
    ensures SortedBelow(w, a[..], i + 1)
  {
    var j: nat := i;
    while j > 0 && w[a[j]] > w[a[j - 1]]
      invariant Inserting(w, a[..], i, j)
    {
      ghost var before := a[..];
      Swap(a, j - 1, j);
      SwapStep(w, before, a[..], i, j);
      j := j - 1;
    }
    InsertDone(w, a[..], i, j);
  }

  /** The state of the insertion sort while id `i`, now at place `j`,
      moves left: the other ids up to place `i` are in ranking order, and
      id `i` precedes every id to its right. */
  ghost predicate Inserting(w: seq<real>, s: seq<nat>, i: nat, j: nat) {
    && |s| == |w| && j <= i < |s|
    && s[j] == i
    && multiset(s) == multiset(Range(|s|))
    && (forall p :: 0 <= p <= i && p != j ==> s[p] < i)
    && (forall p :: i < p < |s| ==> s[p] == p)
    && (forall p, q :: 0 <= p < q <= i && p != j && q != j ==> Precedes(w, s[p], s[q]))
    && (forall q :: j < q <= i ==> Precedes(w, s[j], s[q]))
  }

  /** Swapping id `i` with a lighter left neighbour keeps the state. */
  lemma SwapStep(w: seq<real>, s: seq<nat>, t: seq<nat>, i: nat, j: nat)
    requires Inserting(w, s, i, j) && j > 0 && w[s[j]] > w[s[j - 1]]
    requires |t| == |s| && t[j - 1] == s[j] && t[j] == s[j - 1]
    requires forall k :: 0 <= k < |s| && k != j - 1 && k != j ==> t[k] == s[k]
    requires multiset(t) == multiset(s)
    ensures Inserting(w, t, i, j - 1)
  {
    forall p, q | 0 <= p < q <= i && p != j - 1 && q != j - 1
      ensures Precedes(w, t[p], t[q])
    {
      if q == j {
        assert t[q] == s[j - 1] && t[p] == s[p];
      } else if p == j {
        assert t[p] == s[j - 1] && t[q] == s[q];
      }
    }
    forall q | j - 1 < q <= i
      ensures Precedes(w, t[j - 1], t[q])
    {
      if q > j {
        assert t[q] == s[q];
      }
    }
  }

  /** When id `i` stops, the first `i + 1` places are in ranking order. */
  lemma InsertDone(w: seq<real>, s: seq<nat>, i: nat, j: nat)
    requires Inserting(w, s, i, j) && (j == 0 || w[s[j]] <= w[s[j - 1]])
    ensures SortedBelow(w, s, i + 1)
  {
    forall p, q | 0 <= p < q < i + 1
      ensures Precedes(w, s[p], s[q])
    {
      if q == j {
        assert Precedes(w, s[j - 1], s[j]);
        if p < j - 1 {
          assert Precedes(w, s[p], s[j - 1]);
        }
      }
    }
  }

  /** Two rankings of the same weights are the same list. */
  lemma {:induction false} RankingUnique(w: seq<real>, o1: seq<nat>, o2: seq<nat>)
    requires IsRanking(w, o1) && IsRanking(w, o2)
    ensures o1 == o2
  {
    RankingsAgree(w, o1, o2);
  }

  lemma {:induction false} RankingsAgree(w: seq<real>, o1: seq<nat>, o2: seq<nat>)
    requires multiset(o1) == multiset(o2)
    requires forall i, j :: 0 <= i < j < |o1| ==> Precedes(w, o1[i], o1[j])
    requires forall i, j :: 0 <= i < j < |o2| ==> Precedes(w, o2[i], o2[j])
    ensures o1 == o2
    decreases |o1|
  {
    assert |o1| == |multiset(o1)| == |multiset(o2)| == |o2|;
    if o1 != [] {
      HeadsAgree(w, o1, o2);
      TailsSameElements(o1, o2);
      RankingsAgree(w, o1[1..], o2[1..]);
      assert o1 == [o1[0]] + o1[1..];
      assert o2 == [o2[0]] + o2[1..];
    }
  }

  /** Two orders of the same ids by `Precedes` start with the same id. */
  lemma HeadsAgree(w: seq<real>, o1: seq<nat>, o2: seq<nat>)
    requires o1 != [] && multiset(o1) == multiset(o2)
    requires forall i, j :: 0 <= i < j < |o1| ==> Precedes(w, o1[i], o1[j])
    requires forall i, j :: 0 <= i < j < |o2| ==> Precedes(w, o2[i], o2[j])
    ensures o2 != [] && o1[0] == o2[0]
  {
    assert o1[0] in multiset(o2);
    assert o2 != [];
    assert o2[0] in multiset(o1);
    var p :| 0 <= p < |o2| && o2[p] == o1[0];
    var q :| 0 <= q < |o1| && o1[q] == o2[0];
    assert p != 0 ==> Precedes(w, o2[0], o1[0]);
    assert q != 0 ==> Precedes(w, o1[0], o2[0]);
  }

  /** Dropping the same first element leaves the same elements. */
  lemma TailsSameElements(o1: seq<nat>, o2: seq<nat>)
    requires o1 != [] && o2 != [] && o1[0] == o2[0] && multiset(o1) == multiset(o2)
    ensures multiset(o1[1..]) == multiset(o2[1..])
  {
    assert o1 == [o1[0]] + o1[1..];
    assert o2 == [o2[0]] + o2[1..];
    assert multiset(o1[1..]) == multiset(o1) - multiset{o1[0]};
    assert multiset(o2[1..]) == multiset(o2) - multiset{o2[0]};
  }

  /** The keyword list that a ranking of the ids gives. */
  function KeywordsOf(terms: seq<string>, w: seq<real>, order: seq<nat>): (r: seq<(string, real)>)
    requires |terms| == |w| && forall i :: 0 <= i < |order| ==> order[i] < |w|
    ensures |r| == |order|
  {
    seq(|order|, i requires 0 <= i < |order| => (terms[order[i]], w[order[i]]))
  }

  /** `keywords` is `(term, weight)` for every id of `w`, sorted by weight
      with a stable descending sort. */
  ghost predicate IsKeywordList(keywords: seq<(string, real)>, terms: seq<string>, w: seq<real>) {
    && |terms| == |w|
    && exists order ::
         && IsRanking(w, order)
         && (forall i :: 0 <= i < |order| ==> order[i] < |w|)
         && keywords == KeywordsOf(terms, w, order)
  }

  lemma RankingIds(w: seq<real>, order: seq<nat>)
    requires IsRanking(w, order)
    ensures |order| == |w|
    ensures forall i :: 0 <= i < |order| ==> order[i] < |w|
  {
    assert |order| == |multiset(order)| == |multiset(Range(|w|))| == |w|;
    forall i | 0 <= i < |order|
      ensures order[i] < |w|
    {
      assert order[i] in multiset(Range(|w|));
    }
  }

  /** A keyword list has one entry per vocabulary id; its weights never
      increase along the list; equal weights keep ascending id order; and
      it is the only list with these properties. */
  lemma KeywordListFacts(keywords: seq<(string, real)>, terms: seq<string>, w: seq<real>)
    requires IsKeywordList(keywords, terms, w)
    ensures |keywords| == |w|
    ensures forall i, j :: 0 <= i < j < |keywords| ==> keywords[i].1 >= keywords[j].1
    ensures forall other :: IsKeywordList(other, terms, w) ==> other == keywords
  {
    var order :| IsRanking(w, order) && (forall i :: 0 <= i < |order| ==> order[i] < |w|)
                 && keywords == KeywordsOf(terms, w, order);
    RankingIds(w, order);
    forall i, j | 0 <= i < j < |keywords|
      ensures keywords[i].1 >= keywords[j].1
    {
      assert Precedes(w, order[i], order[j]);
    }
    forall other | IsKeywordList(other, terms, w)
      ensures other == keywords
    {
      var o2 :| IsRanking(w, o2) && (forall i :: 0 <= i < |o2| ==> o2[i] < |w|)
                && other == KeywordsOf(terms, w, o2);
      RankingUnique(w, order, o2);
    }
  }

  // ---------------------------------------------------------------------
  // The two maps of a clustering.
  // ---------------------------------------------------------------------

  /** `cluster2ids` and `id2cluster` index the first `n` labels of a
      clustering: `id2cluster` maps each of those documents to its label;
      `cluster2ids` maps each label that occurs among them to the
      ascending list of its documents. */
  ghost predicate ClusterMapsUpTo(labels: seq<int>, n: nat, cluster2ids: map<int, seq<nat>>, id2cluster: map<nat, int>)
    requires n <= |labels|
  {
    && IdsLabelled(labels, n, id2cluster)
    && ListsAscendingBelow(n, cluster2ids)
    && ListsLabelled(labels, n, cluster2ids)
  }

  /** `id2cluster` maps exactly the first `n` documents, each to its label. */
  ghost predicate IdsLabelled(labels: seq<int>, n: nat, id2cluster: map<nat, int>)
    requires n <= |labels|
  {
    && (forall i: nat :: i in id2cluster <==> i < n)
    && (forall i :: 0 <= i < n ==> id2cluster[i] == labels[i])
  }

  /** Every list of `cluster2ids` is non-empty, strictly ascending, and
      names only the first `n` documents. */
  ghost predicate ListsAscendingBelow(n: nat, cluster2ids: map<int, seq<nat>>) {
    && (forall c :: c in cluster2ids ==> cluster2ids[c] != [] && StrictlyAscending(cluster2ids[c]))
    && (forall c, k :: c in cluster2ids && 0 <= k < |cluster2ids[c]| ==> cluster2ids[c][k] < n)
  }

  /** Each of the first `n` documents is in the list of its own label,
      and only there. */
  ghost predicate ListsLabelled(labels: seq<int>, n: nat, cluster2ids: map<int, seq<nat>>)
    requires n <= |labels|
  {
    && (forall c, i {:trigger i in cluster2ids[c]} :: c in cluster2ids && i in cluster2ids[c] ==> i < n && labels[i] == c)
    && (forall i :: 0 <= i < n ==> labels[i] in cluster2ids && i in cluster2ids[labels[i]])
  }

  /** The two maps index all the labels. */
  ghost predicate ClusterMaps(labels: seq<int>, cluster2ids: map<int, seq<nat>>, id2cluster: map<nat, int>) {
    ClusterMapsUpTo(labels, |labels|, cluster2ids, id2cluster)
  }

  /** The loop of `cluster` that fills both maps from the fitted labels. */
  method BuildClusterMaps(labels: seq<int>) returns (cluster2ids: map<int, seq<nat>>, id2cluster: map<nat, int>)
    ensures ClusterMaps(labels, cluster2ids, id2cluster)
  {
    cluster2ids, id2cluster := map[], map[];
    for postIndex := 0 to |labels|
      invariant ClusterMapsUpTo(labels, postIndex, cluster2ids, id2cluster)
    {
      var clusterLabel := labels[postIndex];
      var members := if clusterLabel in cluster2ids then cluster2ids[clusterLabel] else [];
      ClusterMapsStep(labels, postIndex, cluster2ids, id2cluster);
      cluster2ids := cluster2ids[clusterLabel := members + [postIndex]];
      id2cluster := id2cluster[postIndex := clusterLabel];
    }
  }

  /** One turn of the loop of `BuildClusterMaps` indexes one more label. */
  lemma ClusterMapsStep(labels: seq<int>, n: nat, cluster2ids: map<int, seq<nat>>, id2cluster: map<nat, int>)
    requires n < |labels| && ClusterMapsUpTo(labels, n, cluster2ids, id2cluster)
    ensures var l := labels[n];
            var members := if l in cluster2ids then cluster2ids[l] else [];
            ClusterMapsUpTo(labels, n + 1, cluster2ids[l := members + [n]], id2cluster[n := l])
  {
    ListsAscendingStep(n, cluster2ids, labels[n]);
    ListsLabelledStep(labels, n, cluster2ids);
  }

  lemma ListsAscendingStep(n: nat, cluster2ids: map<int, seq<nat>>, l: int)
    requires ListsAscendingBelow(n, cluster2ids)
    ensures var members := if l in cluster2ids then cluster2ids[l] else [];
            ListsAscendingBelow(n + 1, cluster2ids[l := members + [n]])
  {
    var members := if l in cluster2ids then cluster2ids[l] else [];
    assert forall x :: x in members ==> x < n;
    AscendingSnoc(members, n);
  }

  lemma ListsLabelledStep(labels: seq<int>, n: nat, cluster2ids: map<int, seq<nat>>)
    requires n < |labels| && ListsLabelled(labels, n, cluster2ids)
    ensures var l := labels[n];
            var members := if l in cluster2ids then cluster2ids[l] else [];
            ListsLabelled(labels, n + 1, cluster2ids[l := members + [n]])
  {
    var l := labels[n];
    var members := if l in cluster2ids then cluster2ids[l] else [];
    var c2i := cluster2ids[l := members + [n]];
    forall c, i | c in c2i && i in c2i[c]
      ensures i < n + 1 && labels[i] == c
    {
      if c == l && i != n {
        assert i in members;
      } else if c != l {
        assert i in cluster2ids[c];
      }
    }
  }

  /** Each document lies in exactly one cluster list, the one of its label. */
  lemma ClusterPartition(labels: seq<int>, cluster2ids: map<int, seq<nat>>, id2cluster: map<nat, int>, i: nat, c: int)
    requires ClusterMaps(labels, cluster2ids, id2cluster)
    requires i < |labels|
    ensures c in cluster2ids && i in cluster2ids[c] <==> c == labels[i]
  {
  }

  /** The labels alone determine both maps. */
  lemma {:induction false} ClusterMapsUnique(labels: seq<int>,
      c2i: map<int, seq<nat>>, i2c: map<nat, int>, c2i': map<int, seq<nat>>, i2c': map<nat, int>)
    requires ClusterMaps(labels, c2i, i2c) && ClusterMaps(labels, c2i', i2c')
    ensures c2i == c2i' && i2c == i2c'
  {
    forall c | c in c2i
      ensures c in c2i' && c2i[c] == c2i'[c]
    {
      var member := c2i[c][0];
      assert member in c2i[c];
      assert labels[member] == c;
      assert c in c2i';
      forall x
        ensures x in c2i[c] <==> x in c2i'[c]
      {
        if x in c2i[c] {
          assert x < |labels|;
          assert labels[x] == c;
        }
        if x in c2i'[c] {
          assert x < |labels|;
          assert labels[x] == c;
        }
      }
      AscendingUnique(c2i[c], c2i'[c]);
    }
    forall c | c in c2i'
      ensures c in c2i
    {
      var member := c2i'[c][0];
      assert member in c2i'[c];
      assert member < |labels|;
      assert labels[member] == c;
    }
  }

  /** With a single label, its cluster holds every document in order. */
  lemma SingleCluster(labels: seq<int>, cluster2ids: map<int, seq<nat>>, id2cluster: map<nat, int>, c: int)
    requires ClusterMaps(labels, cluster2ids, id2cluster)
    requires labels != [] && forall i :: 0 <= i < |labels| ==> labels[i] == c
    ensures cluster2ids == map[c := Range(|labels|)]
  {
    assert labels[0] in cluster2ids;
    forall x: nat
      ensures x in cluster2ids[c] <==> x in Range(|labels|)
    {
      if x < |labels| {
        assert labels[x] == c;
        assert x in cluster2ids[labels[x]];
        assert Range(|labels|)[x] == x;
      }
      if x in cluster2ids[c] {
        assert x < |labels|;
      }
    }
    AscendingUnique(cluster2ids[c], Range(|labels|));
    forall c' | c' in cluster2ids
      ensures c' == c
    {
      var member := cluster2ids[c'][0];
      assert member in cluster2ids[c'];
      assert member < |labels|;
      assert labels[member] == c';
    }
  }

  // ---------------------------------------------------------------------
  // Aggregated weights of a cluster.
  // ---------------------------------------------------------------------

  /** Entry `k` summed over a list of vectors. */
  function ColumnSum(vectors: seq<seq<real>>, k: nat): real
    requires forall j :: 0 <= j < |vectors| ==> k < |vectors[j]|
  {
    if vectors == [] then 0.0
    else ColumnSum(vectors[..|vectors| - 1], k) + vectors[|vectors| - 1][k]
  }

  /** `acc += v` on a numpy array: term-wise addition in place. */
  method AddInto(acc: array<real>, v: seq<real>)
    requires |v| == acc.Length
    modifies acc
    ensures forall k :: 0 <= k < acc.Length ==> acc[k] == old(acc[k]) + v[k]
  {
    for k := 0 to acc.Length
      invariant forall k' :: 0 <= k' < k ==> acc[k'] == old(acc[k']) + v[k']
      invariant forall k' :: k <= k' < acc.Length ==> acc[k'] == old(acc[k'])
    {
      acc[k] := acc[k] + v[k];
    }
  }

  // ---------------------------------------------------------------------
  // The class.
  // ---------------------------------------------------------------------

  /** A fitted clustering: `clusterCenters` is the number of centroids,
      `labels[i]` the cluster of document `i`. */
  datatype KMeans = KMeans(clusterCenters: int, labels: seq<int>)

  /** An element of the date source: only its date is read. */
  datatype DatedPost = DatedPost(date: real)

  /** The weighting model over a dictionary. `model` is the fitted
      weighting transform, from a bag of words to weighted pairs. The
      cache `vectors` is never filled. `cluster2ids` and `id2cluster` are
      empty where the source holds `None` or an empty dict, which its
      checks do not tell apart. */
  class MyTfidf {
    const myDictionary: MyDictionary
    const smartirs: string
    const model: Bow -> Sparse
    var vectors: Option<seq<seq<real>>>
    var clustering: Option<KMeans>
    var cluster2ids: map<int, seq<nat>>
    var id2cluster: map<nat, int>

    /** The weighting model only yields ids of the dictionary. */
    ghost predicate ModelFits() {
      forall d :: 0 <= d < |myDictionary.doc2bows| ==>
        IdsBelow(model(myDictionary.doc2bows[d]), |myDictionary.dictionary|)
    }

    ghost predicate Valid()
      reads this
    {
      && vectors.None?
      && ModelFits()
      && (clustering.None? ==> cluster2ids == map[] && id2cluster == map[])
      && (clustering.Some? ==>
            && |clustering.value.labels| == |myDictionary.doc2bows|
            && ClusterMaps(clustering.value.labels, cluster2ids, id2cluster))
    }

    /** The dense vector of document `d`. */
    ghost function DenseOf(d: nat): (r: seq<real>)
      requires ModelFits() && d < |myDictionary.doc2bows|
      ensures |r| == |myDictionary.dictionary|
    {
      Dense(model(myDictionary.doc2bows[d]), |myDictionary.dictionary|)
    }

    /** The dense vectors of all documents, in document order. */
    ghost function DenseVectors(): (r: seq<seq<real>>)
      requires ModelFits()
      ensures |r| == |myDictionary.doc2bows|
    {
      seq(|myDictionary.doc2bows|, d requires 0 <= d < |myDictionary.doc2bows| => DenseOf(d))
    }

    /** The dense vectors of `members`, in list order. */
    ghost function MemberVectors(members: seq<nat>): (r: seq<seq<real>>)
      requires ModelFits() && forall j :: 0 <= j < |members| ==> members[j] < |myDictionary.doc2bows|
      ensures |r| == |members|
      ensures forall j :: 0 <= j < |members| ==> |r[j]| == |myDictionary.dictionary|
    {
      seq(|members|, j requires 0 <= j < |members| => DenseOf(members[j]))
    }

    /** The term-wise sum of the dense vectors of `members`. */
    ghost function ClusterWeights(members: seq<nat>): (r: seq<real>)
      requires ModelFits() && forall j :: 0 <= j < |members| ==> members[j] < |myDictionary.doc2bows|
      ensures |r| == |myDictionary.dictionary|
    {
      var vs := MemberVectors(members);
      seq(|myDictionary.dictionary|, k requires 0 <= k < |myDictionary.dictionary| => ColumnSum(vs, k))
    }

    /** The readiness test of `get_cluster_keywords`. */
    predicate IsClustered()
      reads this
    {
      clustering.Some? && cluster2ids != map[] && id2cluster != map[]
    }

    /** The early-return test of `cluster`: a clustering exists, both maps
        are non-empty, and it has `nClusters` centroids. */
    predicate IsClusteredWith(nClusters: int)
      reads this
    {
      IsClustered() && clustering.value.clusterCenters == nClusters
    }

    constructor (myDictionary: MyDictionary, smartirs: string, model: Bow -> Sparse)
      requires forall d :: 0 <= d < |myDictionary.doc2bows| ==>
                 IdsBelow(model(myDictionary.doc2bows[d]), |myDictionary.dictionary|)
      ensures Valid()
      ensures this.myDictionary == myDictionary && this.smartirs == smartirs && this.model == model
      ensures vectors == None && clustering == None && cluster2ids == map[] && id2cluster == map[]
    {
      this.myDictionary := myDictionary;
      this.smartirs := smartirs;
      this.model := model;
      vectors := None;
      clustering := None;
      cluster2ids := map[];
      id2cluster := map[];
    }

    /** The weighted pairs of document `index`, a Python list index:
        negative indices count from the end, and an index outside the
        corpus is an index error. */
    function GetDoc2Bow(index: int): (r: Result<Sparse>)
      requires ModelFits()
      ensures r.Ok? <==> -|myDictionary.doc2bows| <= index < |myDictionary.doc2bows|
      ensures r.Err? ==> r.error == IndexOutOfRange
      ensures r.Ok? ==>
                && r.value == model(myDictionary.doc2bows[PyIndex(index, |myDictionary.doc2bows|).value])
                && IdsBelow(r.value, |myDictionary.dictionary|)
    {
      match PyIndex(index, |myDictionary.doc2bows|)
      case None => Err(IndexOutOfRange)
      case Some(d) => Ok(model(myDictionary.doc2bows[d]))
    }

    /** The dense vector of document `index`, a Python list index;
        recomputed on every call, as the cache is never filled. */
    method GetVector(index: int) returns (r: Result<seq<real>>)
      requires Valid()
      ensures r.Ok? <==> -|myDictionary.doc2bows| <= index < |myDictionary.doc2bows|
      ensures r.Err? ==> r.error == IndexOutOfRange
      ensures r.Ok? ==> r.value == DenseOf(PyIndex(index, |myDictionary.doc2bows|).value)
    {
      var pairs := GetDoc2Bow(index);
      if pairs.Err? {
        return Err(pairs.error);
      }
      var doc2bow := pairs.value;
      var vector := new real[|myDictionary.dictionary|](_ => 0.0);
      assert vector[..] == Dense([], vector.Length);
      for j := 0 to |doc2bow|
        invariant vector[..] == Dense(doc2bow[..j], vector.Length)
      {
        assert doc2bow[..j + 1][..j] == doc2bow[..j];
        vector[doc2bow[j].0] := doc2bow[j].1;
      }
      assert doc2bow[..|doc2bow|] == doc2bow;
      r := Ok(vector[..]);
    }

    /** The dense vectors of all documents, in document order. */
    method GetVectors() returns (vs: seq<seq<real>>)
      requires Valid()
      ensures vs == DenseVectors()
    {
      vs := [];
      for i := 0 to |myDictionary.doc2bows|
        invariant |vs| == i
        invariant forall d :: 0 <= d < i ==> vs[d] == DenseOf(d)
      {
        var v := GetVector(i);
        vs := vs + [v.value];
      }
    }

    /** Clusters the documents into `nClusters` groups. `fit` stands for
        fitting the clustering library on the vectors and returns its
        labels; `normalizeDate` for the helper that scales a date. The
        dated vectors are built and dropped, so `fit` sees the plain
        vectors. */
    method Cluster(nClusters: int, addDate: bool, v1: Option<seq<DatedPost>>, minValue: real,
                   normalizeDate: (real, real) -> real, fit: (int, seq<seq<real>>) -> seq<int>)
      returns (r: Outcome)
      requires Valid()
      requires |fit(nClusters, DenseVectors())| == |myDictionary.doc2bows|
      modifies this`clustering, this`cluster2ids, this`id2cluster
      ensures Valid()
      ensures old(IsClusteredWith(nClusters)) ==> r == Pass && unchanged(this)
      ensures !old(IsClusteredWith(nClusters)) && addDate && v1.None? ==>
                r == Fail(MissingDates) && unchanged(this)
      ensures !old(IsClusteredWith(nClusters)) && addDate && v1.Some? && |v1.value| != |myDictionary.doc2bows| ==>
                r == Fail(LengthsDoNotMatch) && unchanged(this)
      ensures !old(IsClusteredWith(nClusters)) && (addDate ==> v1.Some? && |v1.value| == |myDictionary.doc2bows|) ==>
                && r == Pass
                && clustering == Some(KMeans(nClusters, fit(nClusters, DenseVectors())))
                && ClusterMaps(fit(nClusters, DenseVectors()), cluster2ids, id2cluster)
      ensures r == Pass && |myDictionary.doc2bows| > 0 ==> IsClusteredWith(nClusters)
    {
      if IsClusteredWith(nClusters) {
        return Pass;
      }
      var vectors := GetVectors();
      if addDate {
        if v1.None? {
          return Fail(MissingDates);
        }
        if |v1.value| != |vectors| {
          return Fail(LengthsDoNotMatch);
        }
        for i := 0 to |vectors| {
          var dateNormalized := normalizeDate(v1.value[i].date, minValue);
          // np.append returns a new array; the source drops it.
          var appended := vectors[i] + [dateNormalized];
        }
      }
      var labels := fit(nClusters, vectors);
      clustering := Some(KMeans(nClusters, labels));
      cluster2ids, id2cluster := BuildClusterMaps(labels);
      if |labels| > 0 {
        assert labels[0] in cluster2ids && 0 in id2cluster;
      }
      r := Pass;
    }

    /** The loop of `get_cluster_keywords` that adds up the dense vectors
        of `members` term by term, starting from zeros. */
    method SumMembers(members: seq<nat>) returns (weights: seq<real>)
      requires Valid() && forall j :: 0 <= j < |members| ==> members[j] < |myDictionary.doc2bows|
      ensures weights == ClusterWeights(members)
    {
      var size := |myDictionary.dictionary|;
      var clusterVector := new real[size](_ => 0.0);
      for m := 0 to |members|
        invariant forall k :: 0 <= k < size ==> clusterVector[k] == ColumnSum(MemberVectors(members[..m]), k)
      {
        var v := GetVector(members[m]);
        var vector := v.value;
        ghost var prefix := MemberVectors(members[..m + 1]);
        assert prefix[..m] == MemberVectors(members[..m]) && prefix[m] == vector;
        AddInto(clusterVector, vector);
      }
      assert members[..|members|] == members;
      weights := clusterVector[..];
    }

    /** The vocabulary terms with the summed weights of the members of
        `cluster`, sorted by weight, highest first, ties in id order. */
    method GetClusterKeywords(cluster: int) returns (r: Result<seq<(string, real)>>)
      requires Valid()
      ensures !IsClustered() ==> r == Err(NotClustered)
      ensures IsClustered() && cluster !in cluster2ids ==> r == Err(NotAValidCluster)
      ensures IsClustered() && cluster in cluster2ids ==>
                && r.Ok?
                && IsKeywordList(r.value, myDictionary.dictionary, ClusterWeights(cluster2ids[cluster]))
    {
      if !IsClustered() {
        return Err(NotClustered);
      }
      if cluster !in cluster2ids {
        return Err(NotAValidCluster);
      }
      var members := cluster2ids[cluster];
      var weights := SumMembers(members);
      var order := RankByWeight(weights);
      RankingIds(weights, order);
      var keywords := KeywordsOf(myDictionary.dictionary, weights, order);
      r := Ok(keywords);
    }
  }
}

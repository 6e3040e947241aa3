# Models.py, modelled in Dafny

`Models.py` turns tagged forum posts into three derived structures:

- `MyDictionary` builds one word list per post and a vocabulary over those lists;
- `MyTfidf` makes TF-IDF vectors, clusters them, and extracts the keywords of a cluster;
- `MyLda` assigns topics to documents under a probability threshold, and computes a coherence score.

The numerical routines of gensim and scikit-learn are not modelled. Their results enter the model as functions or values:

| library result | represented in the model as |
|---|---|
| the vocabulary, `id → term` | `MyDictionary.dictionary` |
| the bag-of-words encoder | parameter `doc2bow` |
| the TF-IDF transform | `MyTfidf.model` |
| the cluster labels of a fit | parameter `fit` |
| the per-document topic distribution | `MyLda.model` |
| the coherence score | parameter `score` |

The logic around those calls is modelled exactly, in four modules:

- `Common`: the error values, Python's list indexing, and facts about ascending index lists.
- `Dictionary`: the word-list rule and the class `MyDictionary`.
- `Tfidf`: dense vectors, the cluster maps, the keyword ranking, and the class `MyTfidf`.
- `Lda`: the topic-threshold rule, the two topic maps, and the class `MyLda`.

Each class has the fields of the Python object:

- `const` for the fields that `__init__` sets from its arguments and from library calls;
- `var` for the fields `__init__` fills with derived state: the dense-vector cache `vectors`, the clustering and its two maps, the two topic maps, and the coherence evaluator cache.

Of those, only the clustering and its maps (in `cluster`) and the coherence evaluator (in `get_coherence`) are reassigned after `__init__`.

Its loops are Dafny methods. The methods that compute a value are proved against a specification function, and lemmas state what the source promises about that function. The methods that change state (`Cluster`, `GetCoherence`, `AddInto` and `Swap`) state the new state directly in their contracts, together with the invariant `Valid()` they keep.

Python behaviour that the model writes out explicitly:

- A negative index counts from the end of the list. An index out of range is `Err(IndexOutOfRange)`.
- `range(n)` with negative `n` is empty. So a title weight of zero or less adds no title words, and no weight is rejected.
- A failing `assert` is an `Err` or `Fail` carrying the matching `Error` value.
- An empty dict is falsy, like `None`. So a cluster map that is `None` and one that is empty are both the empty `map`.
- `list.sort(reverse=True)` is stable. Equal weights therefore keep ascending id order.
- The result of `np.append` is dropped. So the date augmentation leaves the vectors unchanged.

## Model

| member | source | states |
|---|---|---|
| Dictionary.Words | Models.py:25-26 | keeps the word of each (word, tag) pair, one per pair, in order |
| Dictionary.RepeatedLength | Models.py:27-28 | repeating the title `title_weight` times adds `max(0, title_weight)` copies |
| Dictionary.ThreadWordsLength | Models.py:30-33 | the comment words number the tokens of every comment plus those of its direct replies |
| Dictionary.PostWordsLength | Models.py:25-33 | a word list's length is the body length, plus `max(0, title_weight)` times the title length, plus (with comments) all comment and direct-reply tokens; no weight is an error |
| Dictionary.PostWordsIgnoresDepthThree | Models.py:30-33 | replies to replies never contribute words: cutting every thread below depth two leaves each word list unchanged |
| Dictionary.MyDictionary.GetWordsList | Models.py:22-35 | one word list per post, in post order, each the body, then the title repeated `title_weight` times, then (with comments) each comment followed by its direct replies |
| Dictionary.MyDictionary.GetPostWords | Models.py:25-34 | the word list of one post is exactly the rule above |
| Dictionary.MyDictionary.AppendThreads | Models.py:29-33 | the comment loop appends every comment's words and then its replies' words, in order |
| Dictionary.MyDictionary.AppendReplies | Models.py:32-33 | the reply loop appends the words of each direct reply, in order |
| Dictionary.MyDictionary.constructor | Models.py:14-19 | stores the flags, the word lists of the posts, the vocabulary built from them, and one bag of words per word list in order |
| Common.PyIndex | Models.py:48 | a Python list index names a position exactly when it lies in `[-n, n)`, counting from the end when negative |
| Tfidf.Dense | Models.py:54-59 | the dense vector has the vocabulary's length |
| Tfidf.DenseAt | Models.py:56-58 | entry k of the dense vector is the weight of the last pair with id k, and zero when no pair has id k |
| Tfidf.MyTfidf.GetDoc2Bow | Models.py:47-49 | succeeds exactly for Python indices in `[-n, n)` and fails with an index error otherwise; the result is the weighted pairs of the indexed document, which use only vocabulary ids |
| Tfidf.MyTfidf.constructor | Models.py:38-44 | all derived state starts empty: no vectors, no clustering, no cluster maps |
| Tfidf.MyTfidf.GetVector | Models.py:51-59 | succeeds exactly for indices in `[-n, n)` and fails with an index error otherwise; the result is the dense vector of the indexed document, recomputed on every call |
| Tfidf.MyTfidf.GetVectors | Models.py:61-68 | one dense vector per document, in document order |
| Tfidf.MyTfidf.Cluster | Models.py:70-91 | returns with the state unchanged when it is already clustered with `n` centroids and both maps are non-empty; fails, with the state unchanged, when dates are asked for and absent or of the wrong length; otherwise replaces the clustering and both maps with the fit of the unchanged dense vectors and the maps of its labels |
| Tfidf.BuildClusterMaps | Models.py:87-91 | `id2cluster[i]` is label i for every document and for nothing else; `cluster2ids[c]` is the non-empty, strictly ascending list of documents labelled c |
| Tfidf.ClusterPartition | Models.py:87-91 | each document lies in exactly one cluster list, the one of its own label |
| Tfidf.ClusterMapsUnique | Models.py:87-91 | the labels alone determine both maps |
| Tfidf.SingleCluster | Models.py:87-91 | when every document gets the same label, its list is every document in order |
| Tfidf.AddInto | Models.py:100-101 | adding a vector term-wise into the accumulator |
| Tfidf.InsertNext | Models.py:104 | one insertion step keeps the sorted prefix in ranking order and the ids a permutation |
| Tfidf.RankByWeight | Models.py:103-104 | the ids are permuted into descending weight order, with ascending id order among equal weights |
| Tfidf.RankingUnique | Models.py:104 | there is only one such order, as the sort is stable |
| Tfidf.KeywordListFacts | Models.py:103-104 | a keyword list has one entry per vocabulary id, its weights never increase, and it is the only list with those properties |
| Tfidf.MyTfidf.SumMembers | Models.py:99-101 | starting from zeros, the loop adds up the dense vectors of the members term by term |
| Tfidf.MyTfidf.GetClusterKeywords | Models.py:95-105 | fails when there is no clustering or an empty map, or when the cluster has no list; otherwise returns every vocabulary term with the sum of its weights over the members, highest first and ties in id order |
| Lda.SelectedIsKept | Models.py:123-126 | the loop's rule, "probability at least the threshold, or the first pair", keeps exactly the first pair's topic followed by the later topics that reach the threshold |
| Lda.TopicsAboveMembers | Models.py:124 | a topic is kept from the later pairs exactly when one of them has that topic and reaches the threshold |
| Lda.KeptTopicsFacts | Models.py:123-126 | a document gets a topic exactly when the model reports a pair for it; its first topic is that of the first pair; every other topic kept reaches the threshold, and every pair that reaches it is kept |
| Lda.FirstPairIsTheFallback | Models.py:124 | the fallback keeps the first pair, not the most probable one |
| Lda.TopicMembership | Models.py:125-126 | a document is listed under a topic exactly when that topic is among the document's topics |
| Lda.TopicMapsKeep | Models.py:125-126 | keeping one topic appends it to the document's list and the document to the topic's list, and keeps both maps consistent |
| Lda.AddDocument | Models.py:122-126 | the pair loop of one document records exactly its kept topics in both maps |
| Lda.MyLda.GetMappings | Models.py:119-127 | `id2topics[i]` is the kept topics of document i, present exactly when non-empty; `topic2ids[t]` lists documents in ascending order, each as often as it keeps t, and only documents of the corpus |
| Lda.MyLda.DocumentTopics | Models.py:119-127 | a document has topics exactly when the model reports a pair for it; its first topic is that of the first pair; `i in topic2ids[t]` exactly when `t in id2topics[i]` |
| Lda.MyLda.constructor | Models.py:108-116 | stores the parameters, builds both topic maps, and starts with no coherence evaluator |
| Lda.MyLda.GetCoherence | Models.py:141-147 | builds the u_mass evaluator over the corpus and vocabulary on the first call only; later calls leave the object unchanged; exactly one evaluator is ever built; the result is that evaluator's score |

## Left out

- The gensim `Dictionary` construction and `doc2bow` encoding (Models.py:18-19) are library code. They are the parameters `buildDictionary` and `doc2bow`.
- The `TfidfModel` weighting with `smartirs` (Models.py:40, 49) is a foreign numeric transform. It is the function `MyTfidf.model`, required to give only vocabulary ids.
- `MiniBatchKMeans` fitting (Models.py:84-85) is stochastic and foreign. It is the parameter `fit`, which returns one label per document. The centroid count is taken to be `n_clusters`. The estimator's own validation of `n_clusters` is not modelled.
- Tfidf.MyTfidf.Cluster: a fit that the estimator rejects is not modelled. Examples are fewer documents than clusters, or no documents. Models.py:84 stores the new estimator before Models.py:85 fits it, so such a failure would leave an unfitted estimator in `clustering` beside the previous `cluster2ids` and `id2cluster`. The model always completes the fit, so it never reaches that half-updated state.
- `normalize_date` from `helper` (Models.py:81) is not part of this model. It is the parameter `normalizeDate`, and its result is dropped as in the source.
- `LdaModel` fitting and inference (Models.py:112-114) are foreign. They are the function `MyLda.model`, which gives the pairs `get_document_topics` returns.
- Lda.MyLda.model: topic inference is treated as a deterministic function of the bag of words. So two documents with equal bags get equal topic pairs in the model. gensim's inference may differ between calls, because it starts from a random state. No stated property depends on this; each lemma holds for whatever pairs the model reports for each document.
- `get_topic_terms`, `get_top_topic` and `get_perplexity` (Models.py:129-139) are pass-through wrappers around foreign routines. They are not modelled.
- The u_mass coherence computation (Models.py:147) is foreign. It is the parameter `score`; only the one-time creation of the evaluator is modelled. `CoherenceModel` records what the evaluator is built from except the LDA model itself, a function that Dafny cannot compare.
- The cache branches of `get_vector` and `get_vectors` (Models.py:52-53, 62-63) are dead code: `vectors` is `None` from Models.py:41 on and is never assigned again. The field exists and `Valid()` keeps it `None`; the branches are not modelled.
- `print` calls, `tqdm` and the `__main__` driver (Models.py:150-218) are I/O and experiment scaffolding.
- Floating point and numpy arrays are modelled with exact `real` arithmetic and sequences.
- Python `assert` is kept as an error result. Running Python with `-O`, which removes those asserts, is not modelled.
- Default parameter values are not modelled; every parameter is explicit.
- `defaultdict` creates an empty list when a missing key is read. The source reads missing keys in `self.cluster2ids[label].append(...)` (Models.py:90) and in `topic2ids[topic].append(i)` and `id2topics[i].append(topic)` (Models.py:125-126). Each of these reads is immediately appended to, and the model writes it that way: `(if k in m then m[k] else []) + [x]`. So the maps are plain maps, and a key is present exactly when its list is non-empty. A later read of a missing key by a caller would insert an empty list; that is not modelled.

## Behaviour of Models.py worth noting

The points below follow from `Models.py` as written, and the model keeps them:

- A negative `title_weight` is not rejected. It contributes no title words, because `range` of a negative number is empty.
- The guaranteed topic of a document is the first pair the topic model reports (`j == 0`), not the most probable one. `Lda.FirstPairIsTheFallback` gives an input where they differ. A document for which the model reports no pair gets no topic at all.
- `num_topics` and `topic_threshold` are not validated by `MyLda`.
- The dense-vector cache is never filled, so every call recomputes.
- The date augmentation does not add a dimension: the extended vector is built and dropped, and the fit sees the plain vectors.
- `topic2ids[t]` is ascending but not strictly so. A document is listed once for every pair with topic `t` that it keeps.

/** The vocabulary builder: `MyDictionary` flattens each part-of-speech
    filtered post into one word list, then hands those lists to the
    dictionary library, whose results the model takes as given. */
module Dictionary {
  import opened Common

  /** One (word, tag) pair of the part-of-speech filter; only the word is used. */
  datatype TaggedWord = TaggedWord(word: string, tag: string)

  /** A comment with its filtered text and its replies, nested to any depth. */
  datatype PosComment = PosComment(textPosFiltered: seq<TaggedWord>, comments: seq<PosComment>)

  /** A post with its filtered title and body and its comment threads. */
  datatype PosPost = PosPost(
    titlePosFiltered: seq<TaggedWord>,
    bodyPosFiltered: seq<TaggedWord>,
    comments: seq<PosComment>)

  // ---------------------------------------------------------------------
  // The word list of one post, as a specification.
  // ---------------------------------------------------------------------

  /** The word half of every pair, in order. */
  function Words(pairs: seq<TaggedWord>): (r: seq<string>)
    ensures |r| == |pairs|
    ensures forall k :: 0 <= k < |pairs| ==> r[k] == pairs[k].word
  {
    if pairs == [] then [] else Words(pairs[..|pairs| - 1]) + [pairs[|pairs| - 1].word]
  }

  /** `ws` written `times` times in a row; nothing when `times <= 0`,
      as `range(times)` is then empty. */
  function Repeated(ws: seq<string>, times: int): seq<string>
    decreases times
  {
    if times <= 0 then [] else Repeated(ws, times - 1) + ws
  }

  /** The words of a list of replies, one reply after the other. */
  function ReplyWords(replies: seq<PosComment>): seq<string>
  {
    if replies == [] then []
    else ReplyWords(replies[..|replies| - 1]) + Words(replies[|replies| - 1].textPosFiltered)
  }

  /** The words of a list of comments: each comment's words, then those
      of its direct replies. Replies to replies are not visited. */
  function ThreadWords(comments: seq<PosComment>): seq<string>
  {
    if comments == [] then []
    else
      var c := comments[|comments| - 1];
      ThreadWords(comments[..|comments| - 1]) + Words(c.textPosFiltered) + ReplyWords(c.comments)
  }

  /** The word list of one post: body, the title `titleWeight` times, and
      the comment threads when `useComments` is set. */
  function PostWords(p: PosPost, titleWeight: int, useComments: bool): seq<string>
  {
    Words(p.bodyPosFiltered)
      + Repeated(Words(p.titlePosFiltered), titleWeight)
      + (if useComments then ThreadWords(p.comments) else [])
  }

  // ---------------------------------------------------------------------
  // Properties of the word list.
  // ---------------------------------------------------------------------

  function Max0(n: int): nat {
    if n < 0 then 0 else n
  }

  /** The number of tokens in the replies, counted from the front. */
  function ReplyTokenCount(replies: seq<PosComment>): nat
  {
    if replies == [] then 0
    else |replies[0].textPosFiltered| + ReplyTokenCount(replies[1..])
  }

  /** The number of tokens of the comments and their direct replies,
      counted from the front. */
  function ThreadTokenCount(comments: seq<PosComment>): nat
  {
    if comments == [] then 0
    else
      |comments[0].textPosFiltered| + ReplyTokenCount(comments[0].comments)
        + ThreadTokenCount(comments[1..])
  }

  lemma {:induction false} RepeatedLength(ws: seq<string>, times: int)
    ensures |Repeated(ws, times)| == Max0(times) * |ws|
    decreases times
  {
    if times > 0 {
      RepeatedLength(ws, times - 1);
      assert Max0(times) * |ws| == Max0(times - 1) * |ws| + |ws|;
    }
  }

  lemma {:induction false} ReplyTokenCountSnoc(replies: seq<PosComment>, r: PosComment)
    ensures ReplyTokenCount(replies + [r]) == ReplyTokenCount(replies) + |r.textPosFiltered|
  {
    if replies != [] {
      assert (replies + [r])[1..] == replies[1..] + [r];
      ReplyTokenCountSnoc(replies[1..], r);
    }
  }

  lemma {:induction false} ThreadTokenCountSnoc(comments: seq<PosComment>, c: PosComment)
    ensures ThreadTokenCount(comments + [c])
         == ThreadTokenCount(comments) + |c.textPosFiltered| + ReplyTokenCount(c.comments)
  {
    if comments != [] {
      assert (comments + [c])[1..] == comments[1..] + [c];
      ThreadTokenCountSnoc(comments[1..], c);
    }
  }

  lemma {:induction false} ReplyWordsLength(replies: seq<PosComment>)
    ensures |ReplyWords(replies)| == ReplyTokenCount(replies)
  {
    if replies != [] {
      var n := |replies| - 1;
      ReplyWordsLength(replies[..n]);
      ReplyTokenCountSnoc(replies[..n], replies[n]);
      assert replies[..n] + [replies[n]] == replies;
    }
  }

  lemma {:induction false} ThreadWordsLength(comments: seq<PosComment>)
    ensures |ThreadWords(comments)| == ThreadTokenCount(comments)
  {
    if comments != [] {
      var n := |comments| - 1;
      ThreadWordsLength(comments[..n]);
      ReplyWordsLength(comments[n].comments);
      ThreadTokenCountSnoc(comments[..n], comments[n]);
      assert comments[..n] + [comments[n]] == comments;
    }
  }

  /** The length of a post's word list: the body, the title once per unit
      of a positive weight, and every comment and direct reply when
      comments are used. No weight is rejected. */
  lemma PostWordsLength(p: PosPost, titleWeight: int, useComments: bool)
    ensures |PostWords(p, titleWeight, useComments)|
         == |p.bodyPosFiltered| + Max0(titleWeight) * |p.titlePosFiltered|
            + (if useComments then ThreadTokenCount(p.comments) else 0)
  {
    RepeatedLength(Words(p.titlePosFiltered), titleWeight);
    ThreadWordsLength(p.comments);
  }

  /** Removes every reply's own replies: the third level of a thread. */
  function Flattened(replies: seq<PosComment>): (r: seq<PosComment>)
    ensures |r| == |replies|
  {
    seq(|replies|, k requires 0 <= k < |replies| => PosComment(replies[k].textPosFiltered, []))
  }

  /** `p` with each thread cut below its direct replies. */
  function CutBelowReplies(p: PosPost): PosPost
  {
    PosPost(p.titlePosFiltered, p.bodyPosFiltered,
      seq(|p.comments|, k requires 0 <= k < |p.comments| =>
        PosComment(p.comments[k].textPosFiltered, Flattened(p.comments[k].comments))))
  }

  lemma {:induction false} ReplyWordsIgnoresDepth(replies: seq<PosComment>)
    ensures ReplyWords(Flattened(replies)) == ReplyWords(replies)
  {
    if replies != [] {
      var n := |replies| - 1;
      assert Flattened(replies)[..n] == Flattened(replies[..n]);
      ReplyWordsIgnoresDepth(replies[..n]);
    }
  }

  lemma {:induction false} ThreadWordsIgnoresDepth(comments: seq<PosComment>)
    ensures ThreadWords(CutBelowReplies(PosPost([], [], comments)).comments) == ThreadWords(comments)
  {
    var cut := CutBelowReplies(PosPost([], [], comments)).comments;
    if comments != [] {
      var n := |comments| - 1;
      assert cut[..n] == CutBelowReplies(PosPost([], [], comments[..n])).comments;
      ThreadWordsIgnoresDepth(comments[..n]);
      ReplyWordsIgnoresDepth(comments[n].comments);
    }
  }

  /** Traversal stops at depth two: replies to replies never contribute. */
  lemma PostWordsIgnoresDepthThree(p: PosPost, titleWeight: int, useComments: bool)
    ensures PostWords(CutBelowReplies(p), titleWeight, useComments) == PostWords(p, titleWeight, useComments)
  {
    ThreadWordsIgnoresDepth(p.comments);
  }

  /** Appending one more comment's words and its replies' words extends
      the comment words of a prefix of `comments` by one comment. */
  lemma ThreadWordsStep(head: seq<string>, comments: seq<PosComment>, c: nat,
                        before: seq<string>, withText: seq<string>, after: seq<string>)
    requires c < |comments| && before == head + ThreadWords(comments[..c])
    requires withText == before + Words(comments[c].textPosFiltered)
    requires after == withText + ReplyWords(comments[c].comments)
    ensures after == head + ThreadWords(comments[..c + 1])
  {
    var prefix := comments[..c + 1];
    assert prefix[..|prefix| - 1] == comments[..c] && prefix[|prefix| - 1] == comments[c];
    var text := Words(comments[c].textPosFiltered);
    var replies := ReplyWords(comments[c].comments);
    assert ThreadWords(prefix) == ThreadWords(comments[..c]) + text + replies;
    assert after == head + (ThreadWords(comments[..c]) + text + replies);
  }

  // ---------------------------------------------------------------------
  // The class.
  // ---------------------------------------------------------------------

  /** The vocabulary owner. `dictionary[id]` is the term of id `id`: the
      dictionary library's result on the word lists. `doc2bows[i]` is the
      bag of words of post `i`, as the library encodes it. */
  class MyDictionary {
    const titleWeight: int
    const useComments: bool
    const wordsList: seq<seq<string>>
    const dictionary: seq<string>
    const doc2bows: seq<Bow>

    /** `buildDictionary` and `doc2bow` stand for the dictionary library. */
    constructor (posPosts: seq<PosPost>, titleWeight: int, useComments: bool,
                 buildDictionary: seq<seq<string>> -> seq<string>,
                 doc2bow: (seq<string>, seq<string>) -> Bow)
      ensures this.titleWeight == titleWeight && this.useComments == useComments
      ensures |wordsList| == |posPosts|
      ensures forall i :: 0 <= i < |posPosts| ==> wordsList[i] == PostWords(posPosts[i], titleWeight, useComments)
      ensures dictionary == buildDictionary(wordsList)
      ensures |doc2bows| == |wordsList|
      ensures forall i :: 0 <= i < |wordsList| ==> doc2bows[i] == doc2bow(dictionary, wordsList[i])
    {
      this.titleWeight := titleWeight;
      this.useComments := useComments;
      var words := GetWordsList(posPosts, titleWeight, useComments);
      this.wordsList := words;
      var terms := buildDictionary(words);
      this.dictionary := terms;
      this.doc2bows := seq(|words|, i requires 0 <= i < |words| => doc2bow(terms, words[i]));
    }

    /** One word list per post, in post order, each the post's `PostWords`. */
    static method GetWordsList(posPosts: seq<PosPost>, titleWeight: int, useComments: bool)
      returns (wordsList: seq<seq<string>>)
      ensures |wordsList| == |posPosts|
      ensures forall i :: 0 <= i < |posPosts| ==> wordsList[i] == PostWords(posPosts[i], titleWeight, useComments)
    {
      wordsList := [];
      for n := 0 to |posPosts|
        invariant |wordsList| == n
        invariant forall i :: 0 <= i < n ==> wordsList[i] == PostWords(posPosts[i], titleWeight, useComments)
      {
        var words := GetPostWords(posPosts[n], titleWeight, useComments);
        wordsList := wordsList + [words];
      }
    }

    /** The body of the loop of `GetWordsList`: the word list of one post. */
    static method GetPostWords(posPost: PosPost, titleWeight: int, useComments: bool)
      returns (words: seq<string>)
      ensures words == PostWords(posPost, titleWeight, useComments)
    {
      words := Words(posPost.bodyPosFiltered);
      var titleWords := Words(posPost.titlePosFiltered);
      var i := 0;
      while i < titleWeight
        invariant 0 <= i <= Max0(titleWeight)
        invariant words == Words(posPost.bodyPosFiltered) + Repeated(titleWords, i)
      {
        words := words + titleWords;
        i := i + 1;
      }
      assert Repeated(titleWords, i) == Repeated(titleWords, titleWeight);
      if useComments {
        words := AppendThreads(words, posPost.comments);
      }
    }

    /** The comment loop of `GetWordsList`: appends each comment's words
        and then those of its direct replies. */
    static method AppendThreads(head: seq<string>, comments: seq<PosComment>)
      returns (words: seq<string>)
      ensures words == head + ThreadWords(comments)
    {
      words := head;
      for c := 0 to |comments|
        invariant words == head + ThreadWords(comments[..c])
      {
        var comment := comments[c];
        var withText := words + Words(comment.textPosFiltered);
        var after := AppendReplies(withText, comment.comments);
        ThreadWordsStep(head, comments, c, words, withText, after);
        words := after;
      }
      assert comments[..|comments|] == comments;
    }

    /** The reply loop of `GetWordsList`: appends the words of each direct
        reply of one comment. */
    static method AppendReplies(head: seq<string>, replies: seq<PosComment>)
      returns (words: seq<string>)
      ensures words == head + ReplyWords(replies)
    {
      words := head;
      for r := 0 to |replies|
        invariant words == head + ReplyWords(replies[..r])
      {
        words := words + Words(replies[r].textPosFiltered);
        assert replies[..r + 1][..r] == replies[..r];
      }
      assert replies[..|replies|] == replies;
    }
  }
}

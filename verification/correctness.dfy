/**
 * Block correctness and topic selection. A block is all-correct when it has at
 * least one question-type child and every such child is correct; the first
 * answer for a block is cached in `_allComponentsCorrect` and wins from then on.
 * A topic is masterable when every block in its bucket is all-correct.
 */
module Correctness {
  import opened CourseModel
  import opened RelatedLearning

  /** The `_isCorrect` flags of the question-type components among `kids`, in order. */
  function QuestionStatuses(attrs: map<string, Attrs>, kids: seq<string>): seq<bool>
    requires forall i :: 0 <= i < |kids| ==> kids[i] in attrs
    decreases |kids|
  {
    if kids == [] then []
    else
      var c := attrs[kids[|kids| - 1]];
      QuestionStatuses(attrs, kids[..|kids| - 1]) + (if c.isQuestionType then [c.isCorrect] else [])
  }

  /** The uncached verdict: some status was collected and every status is true. */
  function AllComponentsCorrect(attrs: map<string, Attrs>, kids: seq<string>): bool
    requires forall i :: 0 <= i < |kids| ==> kids[i] in attrs
  {
    var status := QuestionStatuses(attrs, kids);
    |status| > 0 && forall k | 0 <= k < |status| :: status[k]
  }

  /** What `areAllComponentsCorrect` answers for `block` given the cache `memo`. */
  function Cached(children: map<string, seq<string>>, attrs: map<string, Attrs>,
                  memo: map<string, bool>, block: string): bool
    requires Matches(children, attrs) && block in children
  {
    if block in memo then memo[block] else AllComponentsCorrect(attrs, children[block])
  }

  /**
   * `blocks.every(areAllComponentsCorrect)`: the verdict and the cache afterwards.
   * Evaluation stops at the first block that is not all-correct, so only the
   * blocks up to that one get a cache entry.
   */
  function EvaluateEvery(children: map<string, seq<string>>, attrs: map<string, Attrs>,
                         memo: map<string, bool>, blocks: seq<string>): (bool, map<string, bool>)
    requires Matches(children, attrs)
    requires forall i :: 0 <= i < |blocks| ==> blocks[i] in children
    decreases |blocks|
  {
    if blocks == [] then (true, memo)
    else
      var v := Cached(children, attrs, memo, blocks[0]);
      var m := memo[blocks[0] := v];
      if !v then (false, m) else EvaluateEvery(children, attrs, m, blocks[1..])
  }

  /**
   * `getUnavailableRelatedLearningList` over the first topics of the index: the
   * topics whose blocks are all all-correct, and the cache afterwards.
   */
  function SelectMasterable(children: map<string, seq<string>>, attrs: map<string, Attrs>,
                            memo: map<string, bool>, index: Index, topics: seq<string>): (seq<string>, map<string, bool>)
    requires Matches(children, attrs) && BucketsWithin(index, children)
    requires forall i :: 0 <= i < |topics| ==> topics[i] in index.buckets
    decreases |topics|
  {
    if topics == [] then ([], memo)
    else
      var (selected, m) := SelectMasterable(children, attrs, memo, index, topics[..|topics| - 1]);
      var topic := topics[|topics| - 1];
      var (allCorrect, m') := EvaluateEvery(children, attrs, m, index.buckets[topic]);
      (if allCorrect then selected + [topic] else selected, m')
  }

  /** Every block of `blocks` is all-correct according to `memo`. */
  ghost predicate AllBlocksCorrect(children: map<string, seq<string>>, attrs: map<string, Attrs>,
                                   memo: map<string, bool>, blocks: seq<string>)
    requires Matches(children, attrs)
    requires forall i :: 0 <= i < |blocks| ==> blocks[i] in children
  {
    forall i :: 0 <= i < |blocks| ==> Cached(children, attrs, memo, blocks[i])
  }

  /** `m'` only adds entries to `m`, and each entry of `m'` is the answer `m` gives. */
  ghost predicate Extends(children: map<string, seq<string>>, attrs: map<string, Attrs>,
                          m: map<string, bool>, m': map<string, bool>)
    requires Matches(children, attrs)
  {
    && m.Keys <= m'.Keys
    && forall b :: b in m' ==> b in children && m'[b] == Cached(children, attrs, m, b)
  }

  /**
   * The correctness check: a block is all-correct exactly when it has a
   * question-type child and every question-type child is correct. In particular
   * a block without question children is never all-correct.
   */
  lemma {:induction false} AllComponentsCorrectMeaning(attrs: map<string, Attrs>, kids: seq<string>)
    requires forall i :: 0 <= i < |kids| ==> kids[i] in attrs
    ensures AllComponentsCorrect(attrs, kids) <==>
      && (exists i :: 0 <= i < |kids| && attrs[kids[i]].isQuestionType)
      && (forall i :: 0 <= i < |kids| && attrs[kids[i]].isQuestionType ==> attrs[kids[i]].isCorrect)
  {
    StatusesMeaning(attrs, kids);
  }

  lemma {:induction false} StatusesMeaning(attrs: map<string, Attrs>, kids: seq<string>)
    requires forall i :: 0 <= i < |kids| ==> kids[i] in attrs
    ensures |QuestionStatuses(attrs, kids)| > 0 <==> exists i :: 0 <= i < |kids| && attrs[kids[i]].isQuestionType
    ensures (forall k :: 0 <= k < |QuestionStatuses(attrs, kids)| ==> QuestionStatuses(attrs, kids)[k]) <==>
            (forall i :: 0 <= i < |kids| && attrs[kids[i]].isQuestionType ==> attrs[kids[i]].isCorrect)
    decreases |kids|
  {
    if kids != [] {
      var init, last := kids[..|kids| - 1], kids[|kids| - 1];
      StatusesMeaning(attrs, init);
      var s0 := QuestionStatuses(attrs, init);
      var s := QuestionStatuses(attrs, kids);
      assert forall i :: 0 <= i < |init| ==> init[i] == kids[i];
      if attrs[last].isQuestionType {
        assert s == s0 + [attrs[last].isCorrect];
        assert s[|s0|] == attrs[last].isCorrect;
      } else {
        assert s == s0;
      }
      if (exists i :: 0 <= i < |kids| && attrs[kids[i]].isQuestionType) && !attrs[last].isQuestionType {
        var i :| 0 <= i < |kids| && attrs[kids[i]].isQuestionType;
        assert i < |init| && attrs[init[i]].isQuestionType;
      }
      if !(forall i :: 0 <= i < |kids| && attrs[kids[i]].isQuestionType ==> attrs[kids[i]].isCorrect) {
        var i :| 0 <= i < |kids| && attrs[kids[i]].isQuestionType && !attrs[kids[i]].isCorrect;
        if i < |init| {
          assert attrs[init[i]].isQuestionType && !attrs[init[i]].isCorrect;
          var k :| 0 <= k < |s0| && !s0[k];
          assert s[k] == s0[k];
        }
      }
      if !(forall k :: 0 <= k < |s| ==> s[k]) {
        var k :| 0 <= k < |s| && !s[k];
        if k < |s0| {
          assert s0[k] == s[k];
        }
      }
    }
  }

  /** A cache that extends `m` gives every block the answer `m` gives. */
  lemma CachedStable(children: map<string, seq<string>>, attrs: map<string, Attrs>,
                     m: map<string, bool>, m': map<string, bool>, b: string)
    requires Matches(children, attrs) && b in children
    requires Extends(children, attrs, m, m')
    ensures Cached(children, attrs, m', b) == Cached(children, attrs, m, b)
  {
  }

  lemma ExtendsTransitive(children: map<string, seq<string>>, attrs: map<string, Attrs>,
                          m0: map<string, bool>, m1: map<string, bool>, m2: map<string, bool>)
    requires Matches(children, attrs)
    requires Extends(children, attrs, m0, m1) && Extends(children, attrs, m1, m2)
    ensures Extends(children, attrs, m0, m2)
  {
    forall b | b in m2 ensures m2[b] == Cached(children, attrs, m0, b) {
      CachedStable(children, attrs, m0, m1, b);
    }
  }

  /**
   * `every` over the cache: the verdict is true exactly when every block is
   * all-correct by the starting cache, and the cache it leaves behind agrees with
   * the starting one wherever the latter had an entry.
   */
  lemma {:induction false} EvaluateEveryMeaning(children: map<string, seq<string>>, attrs: map<string, Attrs>,
                                                memo: map<string, bool>, blocks: seq<string>)
    requires Matches(children, attrs)
    requires forall i :: 0 <= i < |blocks| ==> blocks[i] in children
    requires forall b :: b in memo ==> b in children
    ensures EvaluateEvery(children, attrs, memo, blocks).0 <==> AllBlocksCorrect(children, attrs, memo, blocks)
    ensures Extends(children, attrs, memo, EvaluateEvery(children, attrs, memo, blocks).1)
    decreases |blocks|
  {
    if blocks != [] {
      var v := Cached(children, attrs, memo, blocks[0]);
      var m := memo[blocks[0] := v];
      assert Extends(children, attrs, memo, m);
      if v {
        var rest := blocks[1..];
        EvaluateEveryMeaning(children, attrs, m, rest);
        ExtendsTransitive(children, attrs, memo, m, EvaluateEvery(children, attrs, m, rest).1);
        forall i | 0 <= i < |rest| ensures Cached(children, attrs, m, rest[i]) == Cached(children, attrs, memo, rest[i]) {
          CachedStable(children, attrs, memo, m, rest[i]);
        }
        assert forall i :: 1 <= i < |blocks| ==> blocks[i] == rest[i - 1];
      }
    }
  }

  /**
   * Topic selection: a topic is selected exactly when it is one of `topics` and
   * every block in its bucket is all-correct by the starting cache; a single block
   * that is not excludes the topic. The cache left behind extends the starting one.
   */
  lemma {:induction false} SelectMasterableMeaning(children: map<string, seq<string>>, attrs: map<string, Attrs>,
                                                   memo: map<string, bool>, index: Index, topics: seq<string>)
    requires Matches(children, attrs) && BucketsWithin(index, children)
    requires forall i :: 0 <= i < |topics| ==> topics[i] in index.buckets
    requires forall b :: b in memo ==> b in children
    ensures forall t :: t in SelectMasterable(children, attrs, memo, index, topics).0 <==>
      t in topics && AllBlocksCorrect(children, attrs, memo, index.buckets[t])
    ensures Extends(children, attrs, memo, SelectMasterable(children, attrs, memo, index, topics).1)
    decreases |topics|
  {
    if topics == [] {
      assert Extends(children, attrs, memo, memo);
    } else {
      var init, topic := topics[..|topics| - 1], topics[|topics| - 1];
      assert topics == init + [topic];
      SelectMasterableMeaning(children, attrs, memo, index, init);
      var m := SelectMasterable(children, attrs, memo, index, init).1;
      var bucket := index.buckets[topic];
      EvaluateEveryMeaning(children, attrs, m, bucket);
      ExtendsTransitive(children, attrs, memo, m, EvaluateEvery(children, attrs, m, bucket).1);
      forall i | 0 <= i < |bucket| ensures Cached(children, attrs, m, bucket[i]) == Cached(children, attrs, memo, bucket[i]) {
        CachedStable(children, attrs, memo, m, bucket[i]);
      }
    }
  }
}

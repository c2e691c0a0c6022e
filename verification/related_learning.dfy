/**
 * The related-learning index: authors attach `_relatedTopics` to blocks, and the
 * engine inverts that into a map from topic (content-object id) to the blocks
 * that evidence it. The keys keep the order in which topics were first met, as
 * the keys of the source's plain object do.
 */
module RelatedLearning {
  import opened CourseModel
  import opened OrderedIds

  /** The topics a block names; none when it has no configuration or no `_relatedTopics`. */
  function RelatedTopics(shape: Shape, block: string): seq<string> {
    if block in shape.blockConfig && shape.blockConfig[block].relatedTopics.Some?
    then shape.blockConfig[block].relatedTopics.value
    else []
  }

  /** `block` once for every occurrence of `topic` in `topics`. */
  function Hits(block: string, topics: seq<string>, topic: string): seq<string>
    decreases |topics|
  {
    if topics == [] then []
    else Hits(block, topics[..|topics| - 1], topic) + (if topics[|topics| - 1] == topic then [block] else [])
  }

  /** The bucket of `topic`: the blocks naming it, in block order. */
  function Bucket(shape: Shape, blocks: seq<string>, topic: string): seq<string>
    decreases |blocks|
  {
    if blocks == [] then []
    else
      var b := blocks[|blocks| - 1];
      Bucket(shape, blocks[..|blocks| - 1], topic) + Hits(b, RelatedTopics(shape, b), topic)
  }

  /** Every topic named by the blocks, block by block. */
  function AllTopics(shape: Shape, blocks: seq<string>): seq<string>
    decreases |blocks|
  {
    if blocks == [] then []
    else AllTopics(shape, blocks[..|blocks| - 1]) + RelatedTopics(shape, blocks[|blocks| - 1])
  }

  /** The topics in the order they are first met. */
  function TopicOrder(shape: Shape, blocks: seq<string>): seq<string> {
    Uniq(AllTopics(shape, blocks))
  }

  /** A related-learning index: its keys in insertion order, and the bucket of each key. */
  datatype Index = Index(order: seq<string>, buckets: map<string, seq<string>>)

  /** The bucket of `topic`, empty when the index has no such key. */
  function Lookup(index: Index, topic: string): seq<string> {
    if topic in index.buckets then index.buckets[topic] else []
  }

  /** The index that `createRelatedLearningList` builds from `blocks`. */
  function BuildIndex(shape: Shape, blocks: seq<string>): Index {
    var order := TopicOrder(shape, blocks);
    Index(order, map t | t in order :: Bucket(shape, blocks, t))
  }

  /** The keys of the index are exactly the topics of its order list. */
  ghost predicate KeysInOrder(index: Index) {
    forall t :: t in index.buckets <==> t in index.order
  }

  /** Every block in every bucket is a content object of the course. */
  ghost predicate BucketsWithin(index: Index, children: map<string, seq<string>>) {
    && (forall t :: t in index.order ==> t in index.buckets)
    && forall t, j :: t in index.buckets && 0 <= j < |index.buckets[t]| ==> index.buckets[t][j] in children
  }

  /**
   * Adds `block` to the bucket of every topic it names, creating buckets as
   * needed; a block without topics leaves the index as it is.
   */
  method GetRelatedLearningFromBlock(shape: Shape, block: string, index: Index) returns (r: Index)
    requires KeysInOrder(index)
    ensures KeysInOrder(r)
    ensures r.order == AppendNew(index.order, RelatedTopics(shape, block))
    ensures forall t :: Lookup(r, t) == Lookup(index, t) + Hits(block, RelatedTopics(shape, block), t)
  {
    var topics := RelatedTopics(shape, block);
    r := index;
    if |topics| < 1 {
      return;
    }
    var j := 0;
    while j < |topics|
      invariant 0 <= j <= |topics|
      invariant KeysInOrder(r)
      invariant r.order == AppendNew(index.order, topics[..j])
      invariant forall t :: Lookup(r, t) == Lookup(index, t) + Hits(block, topics[..j], t)
    {
      var id := topics[j];
      ghost var prev := r;
      if id !in r.buckets {
        r := r.(order := r.order + [id], buckets := r.buckets[id := []]);
      }
      r := r.(buckets := r.buckets[id := r.buckets[id] + [block]]);
      PushStep(index, prev, r, block, topics, j);
      j := j + 1;
    }
    assert topics[..j] == topics;
  }

  /**
   * One topic of the loop above: a bucket created (and its key listed) when the
   * topic is new, then the block pushed onto it.
   */
  lemma PushStep(index: Index, prev: Index, r: Index, block: string, topics: seq<string>, j: nat)
    requires j < |topics|
    requires KeysInOrder(prev) && prev.order == AppendNew(index.order, topics[..j])
    requires forall t :: Lookup(prev, t) == Lookup(index, t) + Hits(block, topics[..j], t)
    requires r.order == if topics[j] in prev.buckets then prev.order else prev.order + [topics[j]]
    requires r.buckets == prev.buckets[topics[j] := Lookup(prev, topics[j]) + [block]]
    ensures KeysInOrder(r) && r.order == AppendNew(index.order, topics[..j + 1])
    ensures forall t :: Lookup(r, t) == Lookup(index, t) + Hits(block, topics[..j + 1], t)
  {
    assert topics[..j + 1][..j] == topics[..j];
    forall t ensures Lookup(r, t) == Lookup(index, t) + Hits(block, topics[..j + 1], t) {
      assert Hits(block, topics[..j + 1], t) == Hits(block, topics[..j], t) + (if topics[j] == t then [block] else []);
    }
  }

  /** Builds the related-learning index of `blocks`, one block at a time. */
  method CreateRelatedLearningList(shape: Shape, blocks: seq<string>) returns (index: Index)
    ensures index == BuildIndex(shape, blocks)
  {
    index := Index([], map[]);
    var i := 0;
    while i < |blocks|
      invariant 0 <= i <= |blocks|
      invariant KeysInOrder(index)
      invariant index.order == TopicOrder(shape, blocks[..i])
      invariant forall t :: Lookup(index, t) == Bucket(shape, blocks[..i], t)
    {
      assert blocks[..i + 1][..i] == blocks[..i];
      AppendNewConcat([], AllTopics(shape, blocks[..i]), RelatedTopics(shape, blocks[i]));
      index := GetRelatedLearningFromBlock(shape, blocks[i], index);
      i := i + 1;
    }
    assert blocks[..i] == blocks;
    assert index.buckets == BuildIndex(shape, blocks).buckets;
  }

  /** A block lands in a topic's hits exactly when it is that block and names the topic. */
  lemma {:induction false} HitsMember(block: string, topics: seq<string>, topic: string, b: string)
    ensures b in Hits(block, topics, topic) <==> b == block && topic in topics
    decreases |topics|
  {
    if topics != [] {
      var init := topics[..|topics| - 1];
      HitsMember(block, init, topic, b);
      assert topics == init + [topics[|topics| - 1]];
    }
  }

  /** Bucket membership: a block is in topic T's bucket exactly when it is one of the blocks and names T. */
  lemma {:induction false} BucketMember(shape: Shape, blocks: seq<string>, topic: string, b: string)
    ensures b in Bucket(shape, blocks, topic) <==> b in blocks && topic in RelatedTopics(shape, b)
    decreases |blocks|
  {
    if blocks != [] {
      var init, last := blocks[..|blocks| - 1], blocks[|blocks| - 1];
      BucketMember(shape, init, topic, b);
      HitsMember(last, RelatedTopics(shape, last), topic, b);
      assert blocks == init + [last];
    }
  }

  /** A topic is met exactly when some block names it. */
  lemma {:induction false} AllTopicsMember(shape: Shape, blocks: seq<string>, topic: string)
    ensures topic in AllTopics(shape, blocks) <==>
            exists i :: 0 <= i < |blocks| && topic in RelatedTopics(shape, blocks[i])
    decreases |blocks|
  {
    if blocks != [] {
      var init, last := blocks[..|blocks| - 1], blocks[|blocks| - 1];
      AllTopicsMember(shape, init, topic);
      if exists i :: 0 <= i < |blocks| && topic in RelatedTopics(shape, blocks[i]) {
        var i :| 0 <= i < |blocks| && topic in RelatedTopics(shape, blocks[i]);
        if i < |init| {
          assert init[i] == blocks[i];
        }
      }
      if exists i :: 0 <= i < |init| && topic in RelatedTopics(shape, init[i]) {
        var i :| 0 <= i < |init| && topic in RelatedTopics(shape, init[i]);
        assert blocks[i] == init[i];
      }
    }
  }

  /**
   * The index has a key for a topic exactly when some block names it; its keys
   * are listed once each; every bucket is non-empty.
   */
  lemma IndexKeys(shape: Shape, blocks: seq<string>, topic: string)
    ensures topic in BuildIndex(shape, blocks).buckets <==>
            exists i :: 0 <= i < |blocks| && topic in RelatedTopics(shape, blocks[i])
    ensures NoDuplicates(BuildIndex(shape, blocks).order)
    ensures topic in BuildIndex(shape, blocks).buckets ==> BuildIndex(shape, blocks).buckets[topic] != []
  {
    AllTopicsMember(shape, blocks, topic);
    AppendNewElements([], AllTopics(shape, blocks));
    AppendNewNoDuplicates([], AllTopics(shape, blocks));
    if exists i :: 0 <= i < |blocks| && topic in RelatedTopics(shape, blocks[i]) {
      var i :| 0 <= i < |blocks| && topic in RelatedTopics(shape, blocks[i]);
      BucketMember(shape, blocks, topic, blocks[i]);
    }
  }

  /** Index membership: block `b` is in topic T's bucket exactly when `b` is one of the blocks and names T. */
  lemma IndexMembership(shape: Shape, blocks: seq<string>, topic: string, b: string)
    requires topic in BuildIndex(shape, blocks).buckets
    ensures b in BuildIndex(shape, blocks).buckets[topic] <==> b in blocks && topic in RelatedTopics(shape, b)
  {
    BucketMember(shape, blocks, topic, b);
  }

  /** Buckets keep block order: the bucket of a concatenation is the concatenation of the buckets. */
  lemma {:induction false} BucketConcat(shape: Shape, xs: seq<string>, ys: seq<string>, topic: string)
    ensures Bucket(shape, xs + ys, topic) == Bucket(shape, xs, topic) + Bucket(shape, ys, topic)
    decreases |ys|
  {
    if ys == [] {
      assert xs + ys == xs;
    } else {
      var init := ys[..|ys| - 1];
      assert (xs + ys)[..|xs + ys| - 1] == xs + init;
      assert (xs + ys)[|xs + ys| - 1] == ys[|ys| - 1];
      BucketConcat(shape, xs, init, topic);
    }
  }

  /** A block without topics (no configuration, no list, or an empty list) adds nothing to the index. */
  lemma BlockWithoutTopics(shape: Shape, blocks: seq<string>, b: string)
    requires RelatedTopics(shape, b) == []
    ensures BuildIndex(shape, blocks + [b]) == BuildIndex(shape, blocks)
  {
    assert (blocks + [b])[..|blocks|] == blocks;
    assert AllTopics(shape, blocks + [b]) == AllTopics(shape, blocks);
    forall t ensures Bucket(shape, blocks + [b], t) == Bucket(shape, blocks, t) {
      assert Hits(b, RelatedTopics(shape, b), t) == [];
    }
  }

  /** The index built from blocks of the course only holds blocks of the course. */
  lemma BuildIndexWithin(shape: Shape, blocks: seq<string>)
    requires forall i :: 0 <= i < |blocks| ==> blocks[i] in shape.children
    ensures KeysInOrder(BuildIndex(shape, blocks))
    ensures BucketsWithin(BuildIndex(shape, blocks), shape.children)
  {
    var index := BuildIndex(shape, blocks);
    forall t, j | t in index.buckets && 0 <= j < |index.buckets[t]|
      ensures index.buckets[t][j] in shape.children
    {
      BucketMember(shape, blocks, t, index.buckets[t][j]);
    }
  }
}

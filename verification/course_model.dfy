/**
 * The course tree as the adaptive-content engine sees it: content objects keyed
 * by id, each with a mutable attribute bag, and a fixed shape (children, parent,
 * the per-block `_adaptiveContent` configuration) that gating never changes.
 */
module CourseModel {

  datatype Option<T> = None | Some(value: T)

  /**
   * The attributes of a content object that the engine reads or writes. An unset
   * `_isQuestionType` or `_isCorrect` is read as false, which is how the source's
   * truthiness tests treat it.
   */
  datatype Attrs = Attrs(
    isAvailable: bool,
    isOptional: bool,
    isLocked: bool,
    isComplete: bool,
    isInteractionComplete: bool,
    isQuestionType: bool,
    isCorrect: bool,
    classes: string)

  /** A block's `_adaptiveContent` configuration; `_relatedTopics` may be absent. */
  datatype BlockConfig = BlockConfig(relatedTopics: Option<seq<string>>)

  /**
   * The course's structure: the ordered children of every content object, the
   * parent of every non-root object (`getParent`), and the blocks that carry an
   * `_adaptiveContent` configuration.
   */
  datatype Shape = Shape(
    children: map<string, seq<string>>,
    parent: map<string, string>,
    blockConfig: map<string, BlockConfig>)

  /** Every child id names a content object of the course. */
  predicate Closed(children: map<string, seq<string>>) {
    forall p, i :: p in children && 0 <= i < |children[p]| ==> children[p][i] in children
  }

  /** The attribute bags are exactly those of the course's content objects. */
  predicate Matches(children: map<string, seq<string>>, attrs: map<string, Attrs>) {
    Closed(children) && attrs.Keys == children.Keys
  }

  /** `rank` strictly decreases from parent to child, so the children relation is acyclic. */
  ghost predicate Ranked(children: map<string, seq<string>>, rank: map<string, nat>) {
    && Closed(children)
    && children.Keys <= rank.Keys
    && forall p, i :: p in children && 0 <= i < |children[p]| ==> rank[children[p][i]] < rank[p]
  }

  /** A tree: acyclic, every child has exactly its parent recorded, and every parent link is a child link. */
  ghost predicate WellShaped(shape: Shape, rank: map<string, nat>) {
    && Ranked(shape.children, rank)
    && (forall p, i :: p in shape.children && 0 <= i < |shape.children[p]| ==>
          shape.children[p][i] in shape.parent && shape.parent[shape.children[p][i]] == p)
    && (forall c :: c in shape.parent ==>
          c in shape.children && shape.parent[c] in shape.children && c in shape.children[shape.parent[c]])
  }

  /** `id` and all its descendants: the objects `setOnChildren` reaches from `id`. */
  function Subtree(children: map<string, seq<string>>, ghost rank: map<string, nat>, id: string): set<string>
    requires Ranked(children, rank) && id in children
    decreases rank[id] + 1, 0
  {
    {id} + SubtreesOf(children, rank, children[id], rank[id])
  }

  /** The union of the subtrees of `cs`, whose ranks are all below `bound`. */
  function SubtreesOf(children: map<string, seq<string>>, ghost rank: map<string, nat>,
                      cs: seq<string>, ghost bound: nat): set<string>
    requires Ranked(children, rank)
    requires forall i :: 0 <= i < |cs| ==> cs[i] in children && rank[cs[i]] < bound
    decreases bound, |cs|
  {
    if cs == [] then {}
    else SubtreesOf(children, rank, cs[..|cs| - 1], bound) + Subtree(children, rank, cs[|cs| - 1])
  }

  lemma {:induction false} SubtreesOfMember(children: map<string, seq<string>>, rank: map<string, nat>,
                                            cs: seq<string>, bound: nat, x: string)
    requires Ranked(children, rank)
    requires forall i :: 0 <= i < |cs| ==> cs[i] in children && rank[cs[i]] < bound
    ensures x in SubtreesOf(children, rank, cs, bound) <==>
            exists i :: 0 <= i < |cs| && x in Subtree(children, rank, cs[i])
    decreases |cs|
  {
    if cs != [] {
      var init := cs[..|cs| - 1];
      SubtreesOfMember(children, rank, init, bound, x);
      if x in SubtreesOf(children, rank, init, bound) {
        var i :| 0 <= i < |init| && x in Subtree(children, rank, init[i]);
        assert cs[i] == init[i];
      }
      if exists i :: 0 <= i < |cs| && x in Subtree(children, rank, cs[i]) {
        var i :| 0 <= i < |cs| && x in Subtree(children, rank, cs[i]);
        if i < |cs| - 1 {
          assert init[i] == cs[i];
        }
      }
    }
  }

  /** A node's subtree holds the subtree of each of its children. */
  lemma ChildSubtree(children: map<string, seq<string>>, rank: map<string, nat>, id: string, i: nat)
    requires Ranked(children, rank) && id in children && i < |children[id]|
    ensures Subtree(children, rank, children[id][i]) <= Subtree(children, rank, id)
  {
    forall x | x in Subtree(children, rank, children[id][i])
      ensures x in Subtree(children, rank, id)
    {
      SubtreesOfMember(children, rank, children[id], rank[id], x);
    }
  }

  /**
   * Every proper descendant of `id` has a recorded parent that is itself in the
   * subtree, and no descendant outranks `id`.
   */
  lemma {:induction false} SubtreeParent(shape: Shape, rank: map<string, nat>, id: string, x: string)
    requires WellShaped(shape, rank) && id in shape.children
    requires x in Subtree(shape.children, rank, id)
    ensures x in shape.children && rank[x] <= rank[id]
    ensures x != id ==> x in shape.parent && shape.parent[x] in Subtree(shape.children, rank, id)
    decreases rank[id]
  {
    var children := shape.children;
    if x != id {
      SubtreesOfMember(children, rank, children[id], rank[id], x);
      var i :| 0 <= i < |children[id]| && x in Subtree(children, rank, children[id][i]);
      var c := children[id][i];
      ChildSubtree(children, rank, id, i);
      SubtreeParent(shape, rank, c, x);
    }
  }

  /**
   * Setting attributes on one child's subtree does not reach its siblings: a
   * sibling of `children[p][i]` is never among its descendants.
   */
  lemma SiblingOutsideSubtree(shape: Shape, rank: map<string, nat>, p: string, i: nat, j: nat)
    requires WellShaped(shape, rank) && p in shape.children
    requires i < |shape.children[p]| && j < |shape.children[p]|
    requires shape.children[p][i] != shape.children[p][j]
    ensures shape.children[p][j] !in Subtree(shape.children, rank, shape.children[p][i])
  {
    var id, s := shape.children[p][i], shape.children[p][j];
    if s in Subtree(shape.children, rank, id) {
      SubtreeParent(shape, rank, id, s);
      SubtreeParent(shape, rank, id, p);
      assert false;
    }
  }

  /** The parent of a content object is not among its descendants. */
  lemma ParentOutsideSubtree(shape: Shape, rank: map<string, nat>, id: string)
    requires WellShaped(shape, rank) && id in shape.parent
    ensures shape.parent[id] !in Subtree(shape.children, rank, id)
  {
    var p := shape.parent[id];
    var i :| 0 <= i < |shape.children[p]| && shape.children[p][i] == id;
    if p in Subtree(shape.children, rank, id) {
      SubtreeParent(shape, rank, id, p);
      assert false;
    }
  }
}

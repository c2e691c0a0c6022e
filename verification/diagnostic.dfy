/**
 * The decisions the event handlers take that do not change state themselves:
 * which topics a completed diagnostic makes masterable, which score to submit,
 * where the final assessment lives and what the restore path does about it.
 */
module Diagnostic {
  import opened CourseModel
  import opened OrderedIds
  import opened RelatedLearning
  import opened Correctness
  import opened Gating

  /** The course's `_adaptiveContent` configuration. */
  datatype AdaptiveConfig = AdaptiveConfig(
    isEnabled: bool,
    diagnosticAssessmentId: string,
    finalAssessmentId: Option<string>,
    setPageStatusAs: StatusOption,
    shouldSubmitScore: bool)

  /**
   * The state an `assessments:complete` event carries. `questions` are the ids
   * of the question components actually presented; scores are whole numbers here.
   */
  datatype AssessmentState = AssessmentState(
    id: string,
    isPass: bool,
    questions: seq<string>,
    score: int,
    maxScore: int,
    isPercentageBased: bool,
    scoreAsPercent: int)

  /** A value written to the `score` key of offline storage, with its bounds. */
  datatype ScoreRecord = ScoreRecord(value: int, min: int, max: int)

  /** What the engine announces: `diagnostic:complete`, and the deferred completion re-check. */
  datatype Notification = DiagnosticComplete(state: AssessmentState) | CompletionCheckDeferred

  /** A configured id in the sense of a truthiness test: present and not empty. */
  predicate IsSet(id: Option<string>) {
    id.Some? && id.value != ""
  }

  /** The parent block of each question, in question order (`getParent`). */
  function Parents(shape: Shape, questions: seq<string>): seq<string>
    requires forall i :: 0 <= i < |questions| ==> questions[i] in shape.parent
    decreases |questions|
  {
    if questions == [] then []
    else Parents(shape, questions[..|questions| - 1]) + [shape.parent[questions[|questions| - 1]]]
  }

  /** The blocks of a diagnostic attempt: the parents of its questions, each once. */
  function DiagnosticBlocks(shape: Shape, questions: seq<string>): seq<string>
    requires forall i :: 0 <= i < |questions| ==> questions[i] in shape.parent
  {
    Uniq(Parents(shape, questions))
  }

  lemma {:induction false} ParentsMember(shape: Shape, questions: seq<string>, b: string)
    requires forall i :: 0 <= i < |questions| ==> questions[i] in shape.parent
    ensures b in Parents(shape, questions) <==>
            exists i :: 0 <= i < |questions| && shape.parent[questions[i]] == b
    decreases |questions|
  {
    if questions != [] {
      var init := questions[..|questions| - 1];
      ParentsMember(shape, init, b);
      if exists i :: 0 <= i < |questions| && shape.parent[questions[i]] == b {
        var i :| 0 <= i < |questions| && shape.parent[questions[i]] == b;
        if i < |init| {
          assert init[i] == questions[i];
        }
      }
      if exists i :: 0 <= i < |init| && shape.parent[init[i]] == b {
        var i :| 0 <= i < |init| && shape.parent[init[i]] == b;
        assert questions[i] == init[i];
      }
    }
  }

  /** The blocks of a diagnostic are each listed once, and are exactly the parents of its questions. */
  lemma DiagnosticBlocksMember(shape: Shape, rank: map<string, nat>, questions: seq<string>, b: string)
    requires WellShaped(shape, rank)
    requires forall i :: 0 <= i < |questions| ==> questions[i] in shape.parent
    ensures NoDuplicates(DiagnosticBlocks(shape, questions))
    ensures b in DiagnosticBlocks(shape, questions) <==>
            exists i :: 0 <= i < |questions| && shape.parent[questions[i]] == b
    ensures b in DiagnosticBlocks(shape, questions) ==> b in shape.children
  {
    AppendNewElements([], Parents(shape, questions));
    AppendNewNoDuplicates([], Parents(shape, questions));
    ParentsMember(shape, questions, b);
  }

  /**
   * `checkQuestions` up to the gating call: the topics it passes on, in index
   * order, and the block cache afterwards.
   */
  function MasterableTopics(shape: Shape, ghost rank: map<string, nat>, attrs: map<string, Attrs>,
                            memo: map<string, bool>, questions: seq<string>): (seq<string>, map<string, bool>)
    requires WellShaped(shape, rank) && attrs.Keys == shape.children.Keys
    requires forall i :: 0 <= i < |questions| ==> questions[i] in shape.parent
  {
    var blocks := DiagnosticBlocks(shape, questions);
    forall i | 0 <= i < |blocks| ensures blocks[i] in shape.children {
      DiagnosticBlocksMember(shape, rank, questions, blocks[i]);
    }
    BuildIndexWithin(shape, blocks);
    var index := BuildIndex(shape, blocks);
    SelectMasterable(shape.children, attrs, memo, index, index.order)
  }

  /**
   * Diagnostic outcome, end to end: a topic is gated exactly when the block of
   * some presented question names it and every presented question's block that
   * names it is all-correct (by the cache as it stood before the event); the
   * cache afterwards only adds entries that agree with that answer.
   */
  lemma MasterableTopicsMeaning(shape: Shape, rank: map<string, nat>, attrs: map<string, Attrs>,
                                memo: map<string, bool>, questions: seq<string>, topic: string)
    requires WellShaped(shape, rank) && attrs.Keys == shape.children.Keys
    requires forall b :: b in memo ==> b in shape.children
    requires forall i :: 0 <= i < |questions| ==> questions[i] in shape.parent
    ensures topic in MasterableTopics(shape, rank, attrs, memo, questions).0 <==>
      && (exists i :: 0 <= i < |questions| && topic in RelatedTopics(shape, shape.parent[questions[i]]))
      && (forall i :: 0 <= i < |questions| && topic in RelatedTopics(shape, shape.parent[questions[i]]) ==>
            Cached(shape.children, attrs, memo, shape.parent[questions[i]]))
    ensures Extends(shape.children, attrs, memo, MasterableTopics(shape, rank, attrs, memo, questions).1)
  {
    var children := shape.children;
    var blocks := DiagnosticBlocks(shape, questions);
    forall i | 0 <= i < |blocks| ensures blocks[i] in children {
      DiagnosticBlocksMember(shape, rank, questions, blocks[i]);
    }
    BuildIndexWithin(shape, blocks);
    var index := BuildIndex(shape, blocks);
    SelectMasterableMeaning(children, attrs, memo, index, index.order);
    IndexKeys(shape, blocks, topic);
    var named := exists i :: 0 <= i < |questions| && topic in RelatedTopics(shape, shape.parent[questions[i]]);
    var allCorrect := forall i :: 0 <= i < |questions| && topic in RelatedTopics(shape, shape.parent[questions[i]]) ==>
                        Cached(children, attrs, memo, shape.parent[questions[i]]);
    var inIndex := exists j :: 0 <= j < |blocks| && topic in RelatedTopics(shape, blocks[j]);
    assert inIndex <==> named by {
      if inIndex {
        var j :| 0 <= j < |blocks| && topic in RelatedTopics(shape, blocks[j]);
        DiagnosticBlocksMember(shape, rank, questions, blocks[j]);
      }
      if named {
        var i :| 0 <= i < |questions| && topic in RelatedTopics(shape, shape.parent[questions[i]]);
        var b := shape.parent[questions[i]];
        DiagnosticBlocksMember(shape, rank, questions, b);
        var j :| 0 <= j < |blocks| && blocks[j] == b;
      }
    }
    if inIndex {
      var bucket := index.buckets[topic];
      assert AllBlocksCorrect(children, attrs, memo, bucket) <==> allCorrect by {
        if AllBlocksCorrect(children, attrs, memo, bucket) {
          forall i | 0 <= i < |questions| && topic in RelatedTopics(shape, shape.parent[questions[i]])
            ensures Cached(children, attrs, memo, shape.parent[questions[i]])
          {
            var b := shape.parent[questions[i]];
            DiagnosticBlocksMember(shape, rank, questions, b);
            IndexMembership(shape, blocks, topic, b);
            var k :| 0 <= k < |bucket| && bucket[k] == b;
          }
        }
        if allCorrect {
          forall k | 0 <= k < |bucket| ensures Cached(children, attrs, memo, bucket[k]) {
            IndexMembership(shape, blocks, topic, bucket[k]);
            DiagnosticBlocksMember(shape, rank, questions, bucket[k]);
          }
        }
      }
    }
  }

  /** The record `submitDiagnosticAssessmentScore` writes when it writes one. */
  function ScoreToSubmit(state: AssessmentState): ScoreRecord {
    if state.isPercentageBased then ScoreRecord(state.scoreAsPercent, 0, 100)
    else ScoreRecord(state.score, 0, state.maxScore)
  }

  /**
   * Score bounds: the record's lower bound is 0 and its upper bound is 100 for a
   * percentage-based assessment and `maxScore` otherwise.
   */
  lemma ScoreWithinBounds(state: AssessmentState)
    ensures ScoreToSubmit(state).min == 0
    ensures ScoreToSubmit(state).max == if state.isPercentageBased then 100 else state.maxScore
  {
  }

  /** The page of the final assessment, when one is configured and registered. */
  function FinalAssessmentPage(finalAssessmentId: Option<string>, assessments: map<string, string>): Option<string> {
    if IsSet(finalAssessmentId) && finalAssessmentId.value in assessments
    then Some(assessments[finalAssessmentId.value])
    else None
  }

  /** The ids `hideFinalAssessment` hands to the gating policy: the page, under `unavailable` only. */
  function HideIds(finalAssessmentId: Option<string>, assessments: map<string, string>, s: StatusOption): seq<string> {
    var page := FinalAssessmentPage(finalAssessmentId, assessments);
    if page.Some? && s == Unavailable then [page.value] else []
  }

  /** What the restore path does about the final assessment after replaying the stored ids. */
  datatype RestoreStep = LeaveAlone | Hide | Throws

  /**
   * The restore path as written: it reads the registered assessment and the
   * page it lives on without checking either lookup, so an unregistered id or a
   * missing page makes it throw a TypeError.
   */
  function RestoreStepAsWritten(finalAssessmentId: Option<string>, assessments: map<string, string>,
                                attrs: map<string, Attrs>): RestoreStep
  {
    if !IsSet(finalAssessmentId) then LeaveAlone
    else if finalAssessmentId.value !in assessments then Throws
    else if assessments[finalAssessmentId.value] !in attrs then Throws
    else if attrs[assessments[finalAssessmentId.value]].isAvailable then LeaveAlone
    else Hide
  }

  /**
   * The restore path with both lookups checked: an available page still leaves
   * the assessment alone, and anything else is left to `hideFinalAssessment`,
   * which reports an unregistered assessment and carries on.
   */
  function RestoreStepGuarded(finalAssessmentId: Option<string>, assessments: map<string, string>,
                              attrs: map<string, Attrs>): (r: RestoreStep)
    ensures r != Throws
    ensures r == LeaveAlone <==>
      !IsSet(finalAssessmentId) ||
      (finalAssessmentId.value in assessments && assessments[finalAssessmentId.value] in attrs &&
       attrs[assessments[finalAssessmentId.value]].isAvailable)
  {
    if !IsSet(finalAssessmentId) then LeaveAlone
    else if finalAssessmentId.value in assessments && assessments[finalAssessmentId.value] in attrs
            && attrs[assessments[finalAssessmentId.value]].isAvailable then LeaveAlone
    else Hide
  }

  /**
   * Restore does not clear the completion requirement under `optional` or
   * `complete`. Those policies never change an object's `_isAvailable`, so after
   * the stored ids are replayed a final-assessment page that was available is
   * still available and the restore step leaves the assessment alone. The
   * session's `hideFinalAssessment`, which finds the same page, cleared
   * `_requireAssessmentCompleted` under every policy, so that effect of a passed
   * diagnostic is not restored.
   */
  lemma RestoreLeavesAvailablePage(shape: Shape, rank: map<string, nat>, attrs: map<string, Attrs>,
                                   s: StatusOption, ids: seq<string>,
                                   finalAssessmentId: Option<string>, assessments: map<string, string>)
    requires Ranked(shape.children, rank) && attrs.Keys == shape.children.Keys
    requires s != Unavailable
    requires FinalAssessmentPage(finalAssessmentId, assessments).Some?
    requires FinalAssessmentPage(finalAssessmentId, assessments).value in attrs
    requires attrs[FinalAssessmentPage(finalAssessmentId, assessments).value].isAvailable
    ensures RestoreStepGuarded(finalAssessmentId, assessments, ApplyIds(shape.children, rank, attrs, s, ids)) == LeaveAlone
    ensures RestoreStepAsWritten(finalAssessmentId, assessments, ApplyIds(shape.children, rank, attrs, s, ids)) == LeaveAlone
  {
    var page := FinalAssessmentPage(finalAssessmentId, assessments).value;
    ApplyIdsAt(shape.children, rank, attrs, s, ids, page);
  }

  /** The as-written restore throws exactly when a final assessment is configured but one of the two lookups fails. */
  lemma RestoreAsWrittenThrows(finalAssessmentId: Option<string>, assessments: map<string, string>,
                               attrs: map<string, Attrs>)
    ensures RestoreStepAsWritten(finalAssessmentId, assessments, attrs) == Throws <==>
      IsSet(finalAssessmentId) &&
      (finalAssessmentId.value !in assessments || assessments[finalAssessmentId.value] !in attrs)
  {
  }

  /** A course whose configured final assessment is not registered: the restore path as written throws on it. */
  lemma RestoreAsWrittenCounterexample()
    ensures RestoreStepAsWritten(Some("a-final"), map[], map[]) == Throws
    ensures RestoreStepGuarded(Some("a-final"), map[], map[]) == Hide
    ensures HideIds(Some("a-final"), map[], Unavailable) == []
    ensures FinalAssessmentPage(Some("a-final"), map[]) == None
  {
  }

  /** Wherever the as-written restore does not throw, the guarded one takes the same step. */
  lemma RestoreGuardedAgrees(finalAssessmentId: Option<string>, assessments: map<string, string>,
                             attrs: map<string, Attrs>)
    requires RestoreStepAsWritten(finalAssessmentId, assessments, attrs) != Throws
    ensures RestoreStepGuarded(finalAssessmentId, assessments, attrs) ==
            RestoreStepAsWritten(finalAssessmentId, assessments, attrs)
  {
  }
}

/**
 * The adaptive-content engine as one stateful object: the course's attribute
 * bags, the per-block correctness cache, the offline-storage slots it writes and
 * the two event handlers (`adapt:start` and `assessments:complete`).
 */
module AdaptiveContent {
  import opened CourseModel
  import opened OrderedIds
  import opened RelatedLearning
  import opened Correctness
  import opened Gating
  import opened Diagnostic

  class Engine {
    /** The course's structure, which nothing here changes. */
    const shape: Shape
    /** A ranking that witnesses that the course tree is acyclic. */
    ghost const rank: map<string, nat>
    /** `Adapt.course.get('_adaptiveContent')`. */
    const config: Option<AdaptiveConfig>
    /** The registered assessments: assessment id to the id of the page it lives on. */
    const assessments: map<string, string>

    /** The attribute bag of every content object. */
    var attrs: map<string, Attrs>
    /** `_allComponentsCorrect`, for the blocks that have it set. */
    var memo: map<string, bool>
    /** The `adaptiveContent` key of offline storage. */
    var stored: Option<seq<string>>
    /** How many times offline storage was flushed with `save()`. */
    var flushes: nat
    /** The `score` key of offline storage. */
    var score: Option<ScoreRecord>
    /** `_completionCriteria._requireAssessmentCompleted` of the course configuration. */
    var requireAssessmentCompleted: bool
    /** Whether the diagnostic-completion handler is registered. */
    var listening: bool
    /** What the engine has announced, in order. */
    var notifications: seq<Notification>

    ghost predicate Valid()
      reads this
    {
      && WellShaped(shape, rank)
      && attrs.Keys == shape.children.Keys
      && (forall b :: b in memo ==> b in shape.children)
      && (forall a :: a in assessments ==> assessments[a] in shape.children)
    }

    constructor (shape: Shape, ghost rank: map<string, nat>, config: Option<AdaptiveConfig>,
                 assessments: map<string, string>, attrs: map<string, Attrs>,
                 stored: Option<seq<string>>, score: Option<ScoreRecord>, requireAssessmentCompleted: bool)
      requires WellShaped(shape, rank) && attrs.Keys == shape.children.Keys
      requires forall a :: a in assessments ==> assessments[a] in shape.children
      ensures Valid()
      ensures this.shape == shape && this.rank == rank && this.config == config && this.assessments == assessments
      ensures this.attrs == attrs && this.stored == stored && this.score == score
      ensures this.requireAssessmentCompleted == requireAssessmentCompleted
      ensures memo == map[] && flushes == 0 && !listening && notifications == []
    {
      this.shape, this.rank, this.config, this.assessments := shape, rank, config, assessments;
      this.attrs, this.stored, this.score := attrs, stored, score;
      this.requireAssessmentCompleted := requireAssessmentCompleted;
      memo, flushes, listening, notifications := map[], 0, false, [];
    }

    /** The configured gating policy. */
    function Policy(): StatusOption
      requires config.Some?
    {
      config.value.setPageStatusAs
    }

    /**
     * `areAllComponentsCorrect`: the cached answer when the block has one,
     * otherwise the verdict over its question-type children, which is then cached.
     */
    method AreAllComponentsCorrect(block: string) returns (allCorrect: bool)
      requires Valid() && block in shape.children
      modifies this`memo
      ensures Valid()
      ensures old(block in memo) ==> allCorrect == old(memo[block])
      ensures old(block !in memo) ==> allCorrect == AllComponentsCorrect(attrs, shape.children[block])
      ensures memo == old(memo)[block := allCorrect]
    {
      if block in memo {
        return memo[block];
      }
      var components := shape.children[block];
      var status: seq<bool> := [];
      var i := 0;
      while i < |components|
        invariant 0 <= i <= |components|
        invariant status == QuestionStatuses(attrs, components[..i])
      {
        var component := attrs[components[i]];
        if component.isQuestionType {
          status := status + [component.isCorrect];
        }
        assert components[..i + 1][..i] == components[..i];
        i := i + 1;
      }
      assert components[..i] == components;
      if |status| == 0 {
        memo := memo[block := false];
        return false;
      }
      allCorrect := forall k | 0 <= k < |status| :: status[k];
      memo := memo[block := allCorrect];
    }

    /**
     * `getUnavailableRelatedLearningList`: the topics of the index, in index
     * order, whose blocks are all all-correct; `every` stops at the first block
     * that is not.
     */
    method GetUnavailableRelatedLearningList(index: Index) returns (unavailable: seq<string>)
      requires Valid() && BucketsWithin(index, shape.children)
      modifies this`memo
      ensures Valid()
      ensures (unavailable, memo) == SelectMasterable(shape.children, attrs, old(memo), index, index.order)
    {
      unavailable := [];
      var i := 0;
      while i < |index.order|
        invariant 0 <= i <= |index.order|
        invariant Valid()
        invariant (unavailable, memo) == SelectMasterable(shape.children, attrs, old(memo), index, index.order[..i])
      {
        var topic := index.order[i];
        var blocks := index.buckets[topic];
        ghost var before := memo;
        var allCorrect := true;
        var j := 0;
        while allCorrect && j < |blocks|
          invariant 0 <= j <= |blocks|
          invariant Valid()
          invariant allCorrect ==>
            EvaluateEvery(shape.children, attrs, before, blocks) == EvaluateEvery(shape.children, attrs, memo, blocks[j..])
          invariant !allCorrect ==> EvaluateEvery(shape.children, attrs, before, blocks) == (false, memo)
        {
          assert blocks[j..][1..] == blocks[j + 1..];
          allCorrect := AreAllComponentsCorrect(blocks[j]);
          j := j + 1;
        }
        if allCorrect {
          unavailable := unavailable + [topic];
        }
        assert index.order[..i + 1][..i] == index.order[..i];
        i := i + 1;
      }
      assert index.order[..i] == index.order;
    }

    /**
     * `saveToOfflineStorage`: merges the ids into the stored list, skipping those
     * already present, writes the list back and flushes the store.
     */
    method SaveToOfflineStorage(contentObjectIds: seq<string>)
      modifies this`stored, this`flushes
      ensures stored == Some(AppendNew(StoredIds(old(stored)), contentObjectIds))
      ensures flushes == old(flushes) + 1
    {
      var adaptiveContent := StoredIds(stored);
      var i := 0;
      while i < |contentObjectIds|
        invariant 0 <= i <= |contentObjectIds|
        invariant adaptiveContent == AppendNew(StoredIds(old(stored)), contentObjectIds[..i])
      {
        var id := contentObjectIds[i];
        assert contentObjectIds[..i + 1][..i] == contentObjectIds[..i];
        if id !in adaptiveContent {
          adaptiveContent := adaptiveContent + [id];
        }
        i := i + 1;
      }
      assert contentObjectIds[..i] == contentObjectIds;
      stored := Some(adaptiveContent);
      flushes := flushes + 1;
    }

    /**
     * `checkContentStatusSetting`: nothing at all for an empty list; otherwise the
     * configured policy on each id that names an object, then, when asked, the
     * ids merged into offline storage.
     */
    method CheckContentStatusSetting(ids: seq<string>, saveChanges: bool)
      requires Valid() && config.Some?
      modifies this`attrs, this`stored, this`flushes
      ensures Valid()
      ensures attrs == ApplyIds(shape.children, rank, old(attrs), Policy(), ids)
      ensures stored == Persisted(old(stored), ids, saveChanges)
      ensures flushes == old(flushes) + Flushes(ids, saveChanges)
    {
      if |ids| == 0 {
        return;
      }
      var statusOption := config.value.setPageStatusAs;
      var i := 0;
      while i < |ids|
        invariant 0 <= i <= |ids|
        invariant attrs.Keys == shape.children.Keys
        invariant attrs == ApplyIds(shape.children, rank, old(attrs), statusOption, ids[..i])
        invariant stored == old(stored) && flushes == old(flushes)
      {
        var id := ids[i];
        assert ids[..i + 1][..i] == ids[..i];
        if id in attrs {
          match statusOption
          case Unavailable =>
            attrs := SetOnSubtree(shape.children, rank, attrs, Unavailable, id);
          case Optional =>
            attrs := SetOnSubtree(shape.children, rank, attrs, Optional, id);
            attrs := attrs[id := attrs[id].(classes := attrs[id].classes + " diag-optional")];
          case Complete =>
            attrs := SetOnSubtree(shape.children, rank, attrs, Complete, id);
            attrs := attrs[id := attrs[id].(classes := attrs[id].classes + " diag-complete")];
          case Unrecognised =>
        }
        i := i + 1;
      }
      assert ids[..i] == ids;
      if saveChanges {
        SaveToOfflineStorage(ids);
      }
    }

    /**
     * `hideFinalAssessment`: nothing without a configured id; a warning and
     * nothing else when the assessment is not registered; otherwise the page is
     * made unavailable (under the `unavailable` policy only) and the course stops
     * requiring the assessment for completion.
     */
    method HideFinalAssessment(finalAssessmentId: Option<string>, saveChanges: bool)
      requires Valid() && config.Some?
      modifies this`attrs, this`stored, this`flushes, this`requireAssessmentCompleted
      ensures Valid()
      ensures var ids := HideIds(finalAssessmentId, assessments, Policy());
        && attrs == ApplyIds(shape.children, rank, old(attrs), Policy(), ids)
        && stored == Persisted(old(stored), ids, saveChanges)
        && flushes == old(flushes) + Flushes(ids, saveChanges)
      ensures requireAssessmentCompleted ==
        if FinalAssessmentPage(finalAssessmentId, assessments).Some? then false else old(requireAssessmentCompleted)
    {
      if !IsSet(finalAssessmentId) {
        return;
      }
      var id := finalAssessmentId.value;
      if id !in assessments {
        return;
      }
      var finalAssessmentPageId := assessments[id];
      if config.value.setPageStatusAs == Unavailable {
        CheckContentStatusSetting([finalAssessmentPageId], saveChanges);
      }
      requireAssessmentCompleted := false;
    }

    /**
     * `submitDiagnosticAssessmentScore`: when score submission is configured, the
     * percentage on 0..100 or the raw score on 0..maxScore.
     */
    method SubmitDiagnosticAssessmentScore(state: AssessmentState)
      requires config.Some?
      modifies this`score
      ensures score == if config.value.shouldSubmitScore then Some(ScoreToSubmit(state)) else old(score)
    {
      if !config.value.shouldSubmitScore {
        return;
      }
      if state.isPercentageBased {
        score := Some(ScoreRecord(state.scoreAsPercent, 0, 100));
        return;
      }
      score := Some(ScoreRecord(state.score, 0, state.maxScore));
    }

    /**
     * `checkQuestions`: the presented questions' blocks, each once, their index,
     * the masterable topics, and the policy on those topics with saving.
     */
    method CheckQuestions(questions: seq<string>)
      requires Valid() && config.Some?
      requires forall i :: 0 <= i < |questions| ==> questions[i] in shape.parent
      modifies this`attrs, this`memo, this`stored, this`flushes
      ensures Valid()
      ensures var selection := MasterableTopics(shape, rank, old(attrs), old(memo), questions);
        var topics := selection.0;
        && memo == selection.1
        && attrs == ApplyIds(shape.children, rank, old(attrs), Policy(), topics)
        && stored == Persisted(old(stored), topics, true)
        && flushes == old(flushes) + Flushes(topics, true)
    {
      var blocks := Uniq(Parents(shape, questions));
      forall i | 0 <= i < |blocks| ensures blocks[i] in shape.children {
        DiagnosticBlocksMember(shape, rank, questions, blocks[i]);
      }
      BuildIndexWithin(shape, blocks);
      var relatedLearning := CreateRelatedLearningList(shape, blocks);
      var unavailableRelatedLearning := GetUnavailableRelatedLearningList(relatedLearning);
      CheckContentStatusSetting(unavailableRelatedLearning, true);
    }

    /**
     * The `assessments:complete` handler. Another assessment's event changes
     * nothing. A failed diagnostic still gates its masterable topics and is
     * announced, but hides nothing and submits no score. A passed one also hides
     * the final assessment (saving), submits the score when configured, is
     * announced, and defers a completion re-check.
     */
    method OnDiagnosticAssessmentComplete(state: AssessmentState)
      requires Valid() && config.Some?
      requires state.id == config.value.diagnosticAssessmentId ==>
        forall i :: 0 <= i < |state.questions| ==> state.questions[i] in shape.parent
      modifies this`attrs, this`memo, this`stored, this`flushes, this`score
      modifies this`requireAssessmentCompleted, this`notifications
      ensures Valid()
      ensures state.id != config.value.diagnosticAssessmentId ==>
        && attrs == old(attrs) && memo == old(memo) && stored == old(stored) && flushes == old(flushes)
        && score == old(score) && requireAssessmentCompleted == old(requireAssessmentCompleted)
        && notifications == old(notifications)
      ensures state.id == config.value.diagnosticAssessmentId ==>
        var selection := MasterableTopics(shape, rank, old(attrs), old(memo), state.questions);
        var topics := selection.0;
        var gated := ApplyIds(shape.children, rank, old(attrs), Policy(), topics);
        var saved := Persisted(old(stored), topics, true);
        var hidden := if state.isPass then HideIds(config.value.finalAssessmentId, assessments, Policy()) else [];
        && memo == selection.1
        && attrs == ApplyIds(shape.children, rank, gated, Policy(), hidden)
        && stored == Persisted(saved, hidden, true)
        && flushes == old(flushes) + Flushes(topics, true) + Flushes(hidden, true)
        && requireAssessmentCompleted ==
             (if state.isPass && FinalAssessmentPage(config.value.finalAssessmentId, assessments).Some?
              then false else old(requireAssessmentCompleted))
        && score == (if state.isPass && config.value.shouldSubmitScore then Some(ScoreToSubmit(state)) else old(score))
        && notifications == old(notifications) +
             (if state.isPass then [DiagnosticComplete(state), CompletionCheckDeferred] else [DiagnosticComplete(state)])
    {
      if state.id != config.value.diagnosticAssessmentId {
        return;
      }
      CheckQuestions(state.questions);
      if !state.isPass {
        assert ApplyIds(shape.children, rank, attrs, Policy(), []) == attrs;
        notifications := notifications + [DiagnosticComplete(state)];
        return;
      }
      FinishPassedDiagnostic(state);
    }

    /**
     * The rest of the handler for a passed diagnostic: the final assessment
     * hidden with saving, the score submitted when configured, the completion
     * announced and a completion re-check deferred.
     */
    method FinishPassedDiagnostic(state: AssessmentState)
      requires Valid() && config.Some?
      modifies this`attrs, this`stored, this`flushes, this`score
      modifies this`requireAssessmentCompleted, this`notifications
      ensures Valid()
      ensures var hidden := HideIds(config.value.finalAssessmentId, assessments, Policy());
        && attrs == ApplyIds(shape.children, rank, old(attrs), Policy(), hidden)
        && stored == Persisted(old(stored), hidden, true)
        && flushes == old(flushes) + Flushes(hidden, true)
      ensures requireAssessmentCompleted ==
        if FinalAssessmentPage(config.value.finalAssessmentId, assessments).Some? then false
        else old(requireAssessmentCompleted)
      ensures score == if config.value.shouldSubmitScore then Some(ScoreToSubmit(state)) else old(score)
      ensures notifications == old(notifications) + [DiagnosticComplete(state), CompletionCheckDeferred]
    {
      HideFinalAssessment(config.value.finalAssessmentId, true);
      SubmitDiagnosticAssessmentScore(state);
      notifications := notifications + [DiagnosticComplete(state)];
      notifications := notifications + [CompletionCheckDeferred];
    }

    /**
     * The `adapt:start` handler. With adaptive content off, nothing. With nothing
     * stored, it starts listening for the diagnostic. Otherwise it replays the
     * stored ids without saving, then, for a configured final assessment whose
     * page is not available, hides it again without saving. The store is never
     * written here.
     */
    method OnAdaptStart()
      requires Valid()
      modifies this`attrs, this`stored, this`flushes, this`requireAssessmentCompleted, this`listening
      ensures Valid()
      ensures stored == old(stored) && flushes == old(flushes)
      ensures config.None? || !config.value.isEnabled ==>
        attrs == old(attrs) && requireAssessmentCompleted == old(requireAssessmentCompleted) && listening == old(listening)
      ensures config.Some? && config.value.isEnabled && old(stored).None? ==>
        attrs == old(attrs) && requireAssessmentCompleted == old(requireAssessmentCompleted) && listening
      ensures config.Some? && config.value.isEnabled && old(stored).Some? ==>
        var replayed := ApplyIds(shape.children, rank, old(attrs), Policy(), old(stored).value);
        var fid := config.value.finalAssessmentId;
        var rehide := RestoreStepGuarded(fid, assessments, replayed).Hide?;
        && listening == old(listening)
        && attrs == (if rehide then ApplyIds(shape.children, rank, replayed, Policy(), HideIds(fid, assessments, Policy()))
                     else replayed)
        && requireAssessmentCompleted ==
             (if rehide && FinalAssessmentPage(fid, assessments).Some? then false else old(requireAssessmentCompleted))
    {
      if config.None? || !config.value.isEnabled {
        return;
      }
      var adaptiveContent := stored;
      if adaptiveContent.None? {
        listening := true;
        return;
      }
      CheckContentStatusSetting(adaptiveContent.value, false);
      var finalAssessmentId := config.value.finalAssessmentId;
      if !IsSet(finalAssessmentId) {
        return;
      }
      var id := finalAssessmentId.value;
      if id in assessments && assessments[id] in attrs && attrs[assessments[id]].isAvailable {
        return;
      }
      HideFinalAssessment(finalAssessmentId, false);
    }
  }
}

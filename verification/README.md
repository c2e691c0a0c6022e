# Adaptive content: a verified model of the gating engine

This project models the Adapt Learning "adaptive content" extension. A course
opens with a diagnostic assessment. Blocks of the course name the "related
learning" topics they test: content objects such as pages and articles. When the
learner finishes the diagnostic, every topic is "mastered" if all the blocks
naming it are answered correctly. Mastered topics are then gated by the
configured policy:

- `unavailable`: the topic is hidden.
- `optional`: it is marked optional.
- `complete`: it is marked complete.

The gated ids are merged into offline storage and replayed when the course
restarts. A passed diagnostic can also take the final assessment out of the
course. It can submit the diagnostic's score as well.

The model is in seven modules:

- `OrderedIds` (`ordered_ids.dfy`): ordered id lists without repeats. This covers the stored `adaptiveContent` list, `_.uniq` over the diagnostic's blocks, and the key order of the related-learning index.
- `CourseModel` (`course_model.dfy`): the course tree. It holds the content objects' attribute bags and the fixed shape (children, parents, per-block configuration). Descendant sets are what `setOnChildren` reaches.
- `RelatedLearning` (`related_learning.dfy`): the topic → blocks index. It includes the two methods that build it.
- `Correctness` (`correctness.dfy`): the per-block all-correct verdict, its cache, the short-circuiting `every`, and topic selection.
- `Gating` (`gating.dfy`): the three policies as functions on attribute bags, their per-object effect, and the persistence merge.
- `Diagnostic` (`diagnostic.dfy`): the event handlers' decisions that change no state. These are the masterable topics of an attempt, the score record, where the final assessment lives, and the restore step.
- `AdaptiveContent` (`adaptive_content.dfy`): class `Engine`. Its fields are the mutable state the source changes in place:
  - attribute bags
  - `_allComponentsCorrect` cache
  - stored id list
  - flush count
  - score slot
  - `_requireAssessmentCompleted` flag
  - listener registration
  - emitted notifications

  Every source function that changes state is an `Engine` method. Each method's `ensures` ties the new state to the specification functions of the modules above, and lemmas about those functions state what the source promises.

The source's checks for a stored list, a configured final-assessment id and a
configuration object are JavaScript truthiness tests. A missing value is
`Option.None`. A final-assessment id also counts as unset when it is the empty
string (`Diagnostic.IsSet`). The stored list is only tested for being absent
(`js/adapt-adaptiveContent.js:13`). A stored empty list therefore still counts as a
previous attempt: restore replays nothing and does not register the listener.

Restore brings back the content objects' attributes, but not always the
course's `_requireAssessmentCompleted` flag. A passed diagnostic clears that
flag whenever the final assessment is found (line 169), under every policy.
Restore clears it again only by re-hiding the final assessment, and it does that
only when the assessment's page is unavailable (line 27). Under `optional` and
`complete` the page is never made unavailable, so after a restart the course
requires the final assessment again. `Diagnostic.RestoreLeavesAvailablePage`
states this; the model keeps the source's behaviour.

## Model

| member | source | states |
|---|---|---|
| OrderedIds.AppendNewElements | js/adapt-adaptiveContent.js:212-217 | After the merge, an id is in the stored list exactly when it was there before or is in the saved batch. |
| OrderedIds.AppendNewShape | js/adapt-adaptiveContent.js:212-217 | The merge keeps the old list as a prefix. It appends only ids of the batch that were not stored, none of them twice. |
| OrderedIds.AppendNewNoDuplicates | js/adapt-adaptiveContent.js:214-216 | A stored list without duplicates stays without duplicates: the `includes` test skips ids already present. |
| OrderedIds.AppendNewAllPresent | js/adapt-adaptiveContent.js:215 | Merging ids that are all stored already leaves the list unchanged. |
| OrderedIds.AppendNewIdempotent | js/adapt-adaptiveContent.js:212-221 | Saving the same batch twice gives the same list as saving it once. |
| OrderedIds.AppendNewConcat | js/adapt-adaptiveContent.js:96-111 | Merging `xs + ys` equals merging `xs` and then `ys`. So the index's key order can be built block by block. |
| CourseModel.SubtreesOfMember | js/adapt-adaptiveContent.js:193 | An object is under a list of children exactly when it is in the subtree of one of them. |
| CourseModel.ChildSubtree | js/adapt-adaptiveContent.js:193 | `setOnChildren` on an object reaches everything it reaches from each child. |
| CourseModel.SubtreeParent | js/adapt-adaptiveContent.js:193 | Every proper descendant reached by `setOnChildren` has its recorded parent inside the same subtree. No descendant outranks the root of the call. |
| CourseModel.SiblingOutsideSubtree | js/adapt-adaptiveContent.js:193 | Gating one child never reaches a sibling of it. |
| CourseModel.ParentOutsideSubtree | js/adapt-adaptiveContent.js:193 | Gating an object never reaches its parent. |
| RelatedLearning.GetRelatedLearningFromBlock | js/adapt-adaptiveContent.js:104-112 | Adds the block to the bucket of every topic it names, once per occurrence. New topics are appended to the key order. A block without configuration or topics leaves the index as it is. The keys stay exactly the listed topics. |
| RelatedLearning.CreateRelatedLearningList | js/adapt-adaptiveContent.js:96-102 | The loop over the blocks builds exactly `BuildIndex`: each topic's bucket lists the blocks naming it, in block order. The keys are in first-appearance order. |
| RelatedLearning.HitsMember | js/adapt-adaptiveContent.js:108-111 | A block is pushed to a topic's bucket exactly when it names that topic. |
| RelatedLearning.BucketMember | js/adapt-adaptiveContent.js:96-111 | Both directions: a block is in topic T's bucket exactly when it is one of the blocks and names T. |
| RelatedLearning.AllTopicsMember | js/adapt-adaptiveContent.js:96-111 | A topic is met exactly when some block names it. |
| RelatedLearning.IndexKeys | js/adapt-adaptiveContent.js:96-111 | The index has a key for a topic exactly when some block names it. Keys are listed once each, and no bucket is empty. |
| RelatedLearning.IndexMembership | js/adapt-adaptiveContent.js:96-111 | The bucket of a key holds exactly the given blocks that name the key. |
| RelatedLearning.BucketConcat | js/adapt-adaptiveContent.js:98-100 | Buckets keep block order: the bucket of a concatenation of block lists is the concatenation of the buckets. |
| RelatedLearning.BlockWithoutTopics | js/adapt-adaptiveContent.js:106 | A block without configuration, without `_relatedTopics` or with an empty list adds nothing to the index. |
| RelatedLearning.BuildIndexWithin | js/adapt-adaptiveContent.js:96-111 | An index built from course blocks holds only course blocks. Its keys are exactly its listed topics. |
| Correctness.AllComponentsCorrectMeaning | js/adapt-adaptiveContent.js:135-150 | Both directions: a block is all-correct exactly when it has a question-type child and every question-type child is correct. A block without question children is never all-correct. |
| Correctness.StatusesMeaning | js/adapt-adaptiveContent.js:136-148 | The collected status list is non-empty exactly when there is a question child. It is all-true exactly when every question child is correct. |
| Correctness.CachedStable | js/adapt-adaptiveContent.js:131-133 | Once a block's verdict is cached, every later cache gives the same answer for it. |
| Correctness.ExtendsTransitive | js/adapt-adaptiveContent.js:131-150 | A cache that only adds agreeing entries, extended again the same way, still only adds entries that agree with the original. |
| Correctness.EvaluateEveryMeaning | js/adapt-adaptiveContent.js:123 | `every` over the blocks is true exactly when each block is all-correct by the starting cache. Stopping early still leaves a cache that agrees with the old one. |
| Correctness.SelectMasterableMeaning | js/adapt-adaptiveContent.js:120-128 | Both directions: a topic is selected exactly when every block in its bucket is all-correct, so one incorrect block excludes it. The cache only gains agreeing entries. |
| Gating.ApplyIdsAt | js/adapt-adaptiveContent.js:188-208 | Object by object: after a batch, an object carries the policy's attributes exactly when it lies under an id of the batch that names an object. It carries the marker class once per occurrence of its own id. Ids naming no object are skipped and the rest still apply. |
| Gating.ApplyToIdAt | js/adapt-adaptiveContent.js:189-207 | One id: `setOnChildren` on its subtree, then the marker on the object itself under `optional` and `complete`. Under any other policy name there is no change. |
| Gating.CoveredSnoc | js/adapt-adaptiveContent.js:188-190 | An object is under a batch extended by one id exactly when it was under the batch or is under that id. |
| Gating.TouchedStep | js/adapt-adaptiveContent.js:191-207 | One more application composes with the per-object characterisation. The policy's attributes are set idempotently, and the marker is appended once more. |
| Gating.Untouched | js/adapt-adaptiveContent.js:188-208 | Nothing else changes: an object under no id of the batch keeps every attribute, including its classes. |
| Gating.ApplyIdsConcat | js/adapt-adaptiveContent.js:188-208 | Gating `xs + ys` is gating `xs` and then `ys`. |
| Gating.CoveredSameIds | js/adapt-adaptiveContent.js:188-190 | Which objects a batch covers depends only on which ids it holds. |
| Gating.ReplayMatchesSession | js/adapt-adaptiveContent.js:12-20 | Restore reproduces every content object's attributes. Replaying the merged stored list on the course as it was gives every content object the same flags as the session's calls in turn. Under `unavailable` the objects are equal outright. The course's completion flag is not covered (see `Diagnostic.RestoreLeavesAvailablePage`). |
| Gating.PersistedMerge | js/adapt-adaptiveContent.js:209-222 | A saving call with ids keeps the stored list as a prefix, adds every id and adds no duplicate, and is idempotent. A call that does not save, or has no ids, leaves the store as it was. |
| Diagnostic.ParentsMember | js/adapt-adaptiveContent.js:65 | A block is among the question parents exactly when it is the parent of a presented question. |
| Diagnostic.DiagnosticBlocksMember | js/adapt-adaptiveContent.js:65 | The diagnostic's blocks are the presented questions' parents, each listed once, and all are course objects. |
| Diagnostic.MasterableTopicsMeaning | js/adapt-adaptiveContent.js:63-71 | End to end: a topic is gated exactly when some presented question's block names it and every such block is all-correct. The cache only gains agreeing entries. |
| Diagnostic.ScoreWithinBounds | js/adapt-adaptiveContent.js:172-181 | The score record's bounds are 0..100 for a percentage-based assessment and 0..maxScore otherwise. |
| Diagnostic.RestoreStepGuarded | js/adapt-adaptiveContent.js:22-29 | The corrected restore step never throws. It leaves the final assessment alone exactly when no id is configured or its page is found and available. |
| Diagnostic.RestoreAsWrittenThrows | js/adapt-adaptiveContent.js:22-27 | The restore step as written throws exactly when a final assessment is configured but the assessment or its page cannot be found. |
| Diagnostic.RestoreAsWrittenCounterexample | js/adapt-adaptiveContent.js:25-26 | A configured but unregistered final assessment: as written it throws. The guarded step hands it to `hideFinalAssessment`, which finds no page and gates nothing. |
| Diagnostic.RestoreLeavesAvailablePage | js/adapt-adaptiveContent.js:20-29 | Under `optional` or `complete`, replaying any stored ids leaves an available final-assessment page available. Both the as-written and the guarded restore step then leave the assessment alone, so `_requireAssessmentCompleted` is not cleared on restore, though the session's `hideFinalAssessment` cleared it for the same page (line 169). |
| Diagnostic.RestoreGuardedAgrees | js/adapt-adaptiveContent.js:22-29 | Wherever the as-written step does not throw, the guarded step takes the same decision. |
| AdaptiveContent.Engine.AreAllComponentsCorrect | js/adapt-adaptiveContent.js:130-151 | Returns the cached verdict when there is one. Otherwise it returns the verdict over the question children. The answer is cached and nothing else in the cache changes. |
| AdaptiveContent.Engine.GetUnavailableRelatedLearningList | js/adapt-adaptiveContent.js:120-128 | Returns the masterable topics in key order, and leaves the cache `SelectMasterable` describes, including the short-circuit of `every`. |
| AdaptiveContent.Engine.SaveToOfflineStorage | js/adapt-adaptiveContent.js:212-222 | The stored list becomes the merge of the old list (or `[]`) with the batch. The store is flushed once. |
| AdaptiveContent.Engine.CheckContentStatusSetting | js/adapt-adaptiveContent.js:183-210 | An empty batch changes nothing. Otherwise the attribute bags become `ApplyIds` of the policy, and the store is merged and flushed only when saving. |
| AdaptiveContent.Engine.HideFinalAssessment | js/adapt-adaptiveContent.js:153-170 | Does nothing for an unset or unregistered id. Otherwise it gates the page only under `unavailable` and clears `_requireAssessmentCompleted` under every policy. |
| AdaptiveContent.Engine.SubmitDiagnosticAssessmentScore | js/adapt-adaptiveContent.js:172-181 | Writes the score record only when score submission is configured. It uses the percentage on 0..100 or the raw score on 0..maxScore. |
| AdaptiveContent.Engine.CheckQuestions | js/adapt-adaptiveContent.js:63-71 | Gates, with saving, exactly the masterable topics of the presented questions. The cache becomes the one the selection leaves. |
| AdaptiveContent.Engine.FinishPassedDiagnostic | js/adapt-adaptiveContent.js:45-52 | For a passed diagnostic: the final assessment is hidden with saving, the score is submitted when configured, completion is announced and a re-check deferred, in that order. |
| AdaptiveContent.Engine.OnDiagnosticAssessmentComplete | js/adapt-adaptiveContent.js:32-53 | Another assessment's event changes nothing. A failed diagnostic gates and announces, but hides nothing and submits nothing. A passed one also hides the final assessment with saving, submits the score and defers a completion re-check, in that order. |
| AdaptiveContent.Engine.OnAdaptStart | js/adapt-adaptiveContent.js:6-30 | Disabled or unconfigured: nothing. Nothing stored: only the listener is registered. Otherwise the stored ids are replayed without saving and the final assessment is re-hidden when its page is not available. The store is never written. |

The contracts above are stated against these definitions:

- `OrderedIds.AppendNew` is the `includes`/`push` merge of lines 213-217.
- `Correctness.EvaluateEvery` is the short-circuiting `every` of line 123.
- `Correctness.SelectMasterable` is the topic loop of lines 120-128.
- `Gating.ApplyIds` is the loop over ids of lines 188-208.
- `Diagnostic.ScoreToSubmit` is the record chosen at lines 175-180.
- `Diagnostic.RestoreStepAsWritten` is the restore decision of lines 22-29 as written.
- `Diagnostic.RestoreStepGuarded` is its corrected form.

## Left out

- `templates/diagnosticChoice.jsx` is a view template (the learner's choice screen). It is not part of this model.
- Logging (`console.log`, `Adapt.log.warn`) and the `logName` string built at line 186 have no effect on state. They are left out.
- Event wiring (`Adapt.on`, `Adapt.trigger`, `_.defer`) becomes state:
  - registering the diagnostic handler is the `listening` flag;
  - triggered events are entries of `notifications`;
  - the deferred `checkCompletionStatus` call is the `CompletionCheckDeferred` notification, because course completion is outside this extension.
- Offline storage is modelled as two slots (`stored`, `score`) and a flush counter. The real storage backends (SCORM suspend data, cookies) are not modelled.
- `_completionCriteria._requireAssessmentCompleted` is modelled as one boolean of the engine.
- Scores are whole numbers. JavaScript numbers are floating point, and a fractional score or percentage is not modelled.
- The related-learning index lists its keys in first-appearance order, as a plain object does for keys that are not integer-like. Topic ids that look like array indices, which a plain object enumerates first and in numeric order, are not modelled.
- Topic ids that collide with `Object.prototype` member names (`constructor`, `toString`) are not modelled. In the source, such a key makes `!relatedLearning[id]` false for a fresh object.
- `_setPageStatusAs` is a `StatusOption`: the three recognised names, and `Unrecognised` for any other non-empty name, which gates nothing. An absent or empty `_setPageStatusAs` makes line 186 throw before any id is processed. That case is not modelled.
- A content object whose `_classes` is unset would receive the text `undefined` before the marker. The model gives every object a class string.
- `checkContentStatusSetting` with an absent `ids` argument (line 184) is not modelled, because no caller passes one.
- AdaptiveContent.Engine.CheckQuestions: requires every presented question to have a recorded parent. The source calls `getParent()` on each question without a check.
- AdaptiveContent.Engine.OnDiagnosticAssessmentComplete: requires the same of the diagnostic's own questions, for the same reason. Events from other assessments carry no requirement, because the source returns at line 36 before reading their questions.
- AdaptiveContent.Engine.OnAdaptStart: uses the guarded restore step instead of lines 25-27 as written. For an unregistered final assessment, the source throws, while the model hands over to `hideFinalAssessment`, which warns and changes nothing; see Findings.
- The engine's invariant requires every registered assessment's page to be a content object of the course. A registered assessment whose page is missing from the course, on which line 27 would throw, is therefore not modelled.

## Findings

| source | as written | input that shows it | evidently intended | confidence | as-written member | corrected member |
|---|---|---|---|---|---|---|
| js/adapt-adaptiveContent.js:25-27 | On restore, the final assessment is looked up by id and `getState()` is called on the result without a check. The page is looked up and `get` is called on the result without a check. | A course with `_finalAssessmentId: "a-final"`, no assessment registered under that id, and a non-empty stored list. `assessment` is `undefined`, so `assessment.getState()` throws a TypeError at start-up. | The same tolerance `hideFinalAssessment` shows (lines 157-161): an unknown final assessment is reported and skipped, and restore completes without touching `_requireAssessmentCompleted`. | not executed | Diagnostic.RestoreAsWrittenCounterexample | Diagnostic.RestoreStepGuarded |

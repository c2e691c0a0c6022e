/**
 * The gating policies of `checkContentStatusSetting`, as functions on the
 * attribute bags of the course, and what a batch of ids does to each object.
 */
module Gating {
  import opened CourseModel
  import opened OrderedIds

  /** `_setPageStatusAs`; any other name matches no case of the switch. */
  datatype StatusOption = Unavailable | Optional | Complete | Unrecognised

  /** The policies that also append a marker class to the object itself. */
  predicate Marks(s: StatusOption) {
    s.Optional? || s.Complete?
  }

  /** What `setOnChildren` writes on an object and each of its descendants. */
  function Effect(a: Attrs, s: StatusOption): Attrs {
    match s
    case Unavailable => a.(isAvailable := false)
    case Optional => a.(isOptional := true)
    case Complete => a.(isLocked := false, isComplete := true, isInteractionComplete := true)
    case Unrecognised => a
  }

  /** The class token appended to the object itself, space included. */
  function Marker(s: StatusOption): string
    requires Marks(s)
  {
    if s.Optional? then " diag-optional" else " diag-complete"
  }

  /** `m` written `n` times over. */
  function Repeat(m: string, n: nat): string {
    if n == 0 then "" else Repeat(m, n - 1) + m
  }

  /** `setOnChildren`: the policy's attributes on `id` and every descendant of it. */
  function SetOnSubtree(children: map<string, seq<string>>, ghost rank: map<string, nat>,
                        attrs: map<string, Attrs>, s: StatusOption, id: string): map<string, Attrs>
    requires Ranked(children, rank) && attrs.Keys == children.Keys && id in children
  {
    var sub := Subtree(children, rank, id);
    map k | k in attrs :: if k in sub then Effect(attrs[k], s) else attrs[k]
  }

  /** One id of the batch: skipped when it names no object, else the switch on the policy. */
  function ApplyToId(children: map<string, seq<string>>, ghost rank: map<string, nat>,
                     attrs: map<string, Attrs>, s: StatusOption, id: string): map<string, Attrs>
    requires Ranked(children, rank) && attrs.Keys == children.Keys
  {
    if id !in attrs || s.Unrecognised? then attrs
    else
      var m := SetOnSubtree(children, rank, attrs, s, id);
      if Marks(s) then m[id := m[id].(classes := m[id].classes + Marker(s))] else m
  }

  /** The ids of a batch applied in order. */
  function ApplyIds(children: map<string, seq<string>>, ghost rank: map<string, nat>,
                    attrs: map<string, Attrs>, s: StatusOption, ids: seq<string>): (r: map<string, Attrs>)
    requires Ranked(children, rank) && attrs.Keys == children.Keys
    ensures r.Keys == attrs.Keys
    decreases |ids|
  {
    if ids == [] then attrs
    else ApplyToId(children, rank, ApplyIds(children, rank, attrs, s, ids[..|ids| - 1]), s, ids[|ids| - 1])
  }

  /** Object `k` lies under some id of the batch that names an object. */
  ghost predicate Covered(children: map<string, seq<string>>, rank: map<string, nat>, ids: seq<string>, k: string)
    requires Ranked(children, rank)
  {
    exists j :: 0 <= j < |ids| && ids[j] in children && k in Subtree(children, rank, ids[j])
  }

  /**
   * Object `a` after a batch: the policy's attributes when it is covered, and the
   * marker appended once for each time the batch names it.
   */
  function Touched(a: Attrs, s: StatusOption, covered: bool, n: nat): Attrs {
    var b := if covered then Effect(a, s) else a;
    if Marks(s) then b.(classes := a.classes + Repeat(Marker(s), n)) else b
  }

  /**
   * Policy effects, object by object: after a batch, each object carries the
   * policy's attributes exactly when it lies under an id of the batch that names
   * an object, and the marker class once per occurrence of its own id; ids that
   * name no object are skipped without stopping the rest.
   */
  lemma {:induction false} ApplyIdsAt(children: map<string, seq<string>>, rank: map<string, nat>,
                                      attrs: map<string, Attrs>, s: StatusOption, ids: seq<string>, k: string)
    requires Ranked(children, rank) && attrs.Keys == children.Keys && k in attrs
    ensures ApplyIds(children, rank, attrs, s, ids)[k] ==
            Touched(attrs[k], s, Covered(children, rank, ids, k), multiset(ids)[k])
    decreases |ids|
  {
    if ids == [] {
      assert attrs[k].classes + "" == attrs[k].classes;
    } else {
      var init, last := ids[..|ids| - 1], ids[|ids| - 1];
      assert ids == init + [last];
      var prev := ApplyIds(children, rank, attrs, s, init);
      var cov0, n0 := Covered(children, rank, init, k), multiset(init)[k];
      var hit := last in children && k in Subtree(children, rank, last);
      ApplyIdsAt(children, rank, attrs, s, init, k);
      assert prev[k] == Touched(attrs[k], s, cov0, n0);
      ApplyToIdAt(children, rank, prev, s, last, k);
      assert ApplyIds(children, rank, attrs, s, ids)[k] == Step(prev[k], s, hit, last == k);
      TouchedStep(attrs[k], s, cov0, n0, hit, last == k);
      CoveredSnoc(children, rank, init, last, k);
      assert multiset(ids)[k] == n0 + (if last == k then 1 else 0);
    }
  }

  /** One more application to `a`: the policy's attributes if `hit`, the marker if `named`. */
  function Step(a: Attrs, s: StatusOption, hit: bool, named: bool): Attrs {
    var b := if hit then Effect(a, s) else a;
    if Marks(s) && named then b.(classes := b.classes + Marker(s)) else b
  }

  lemma ApplyToIdAt(children: map<string, seq<string>>, rank: map<string, nat>,
                    attrs: map<string, Attrs>, s: StatusOption, id: string, k: string)
    requires Ranked(children, rank) && attrs.Keys == children.Keys && k in attrs
    ensures ApplyToId(children, rank, attrs, s, id)[k] ==
            Step(attrs[k], s, id in children && k in Subtree(children, rank, id), id == k)
  {
  }

  lemma CoveredSnoc(children: map<string, seq<string>>, rank: map<string, nat>,
                    init: seq<string>, last: string, k: string)
    requires Ranked(children, rank)
    ensures Covered(children, rank, init + [last], k) <==>
            Covered(children, rank, init, k) || (last in children && k in Subtree(children, rank, last))
  {
    var ids := init + [last];
    if Covered(children, rank, init, k) {
      var j :| 0 <= j < |init| && init[j] in children && k in Subtree(children, rank, init[j]);
      assert ids[j] == init[j];
    }
    if last in children && k in Subtree(children, rank, last) {
      assert ids[|init|] == last;
    }
    if Covered(children, rank, ids, k) {
      var j :| 0 <= j < |ids| && ids[j] in children && k in Subtree(children, rank, ids[j]);
      if j < |init| {
        assert init[j] == ids[j];
      }
    }
  }

  lemma TouchedStep(a: Attrs, s: StatusOption, covered: bool, n: nat, hit: bool, named: bool)
    ensures Step(Touched(a, s, covered, n), s, hit, named) ==
            Touched(a, s, covered || hit, n + if named then 1 else 0)
  {
    if !Marks(s) {
      UnmarkedStep(a, s, covered, n, hit, named);
    } else if named {
      NamedStep(a, s, covered, n, hit);
    } else {
      UnnamedStep(a, s, covered, n, hit);
    }
  }

  lemma UnmarkedStep(a: Attrs, s: StatusOption, covered: bool, n: nat, hit: bool, named: bool)
    requires !Marks(s)
    ensures Step(Touched(a, s, covered, n), s, hit, named) == Touched(a, s, covered || hit, n + if named then 1 else 0)
  {
  }

  lemma UnnamedStep(a: Attrs, s: StatusOption, covered: bool, n: nat, hit: bool)
    requires Marks(s)
    ensures Step(Touched(a, s, covered, n), s, hit, false) == Touched(a, s, covered || hit, n)
  {
  }

  lemma NamedStep(a: Attrs, s: StatusOption, covered: bool, n: nat, hit: bool)
    requires Marks(s)
    ensures Step(Touched(a, s, covered, n), s, hit, true) == Touched(a, s, covered || hit, n + 1)
  {
  }

  /**
   * Nothing else changes: an object that lies under no id of the batch and is not
   * itself named keeps every attribute, so siblings and ancestors of the named
   * objects are untouched.
   */
  lemma Untouched(children: map<string, seq<string>>, rank: map<string, nat>,
                  attrs: map<string, Attrs>, s: StatusOption, ids: seq<string>, k: string)
    requires Ranked(children, rank) && attrs.Keys == children.Keys && k in attrs
    requires forall j :: 0 <= j < |ids| && ids[j] in children ==> k !in Subtree(children, rank, ids[j])
    ensures ApplyIds(children, rank, attrs, s, ids)[k] == attrs[k]
  {
    ApplyIdsAt(children, rank, attrs, s, ids, k);
    assert attrs[k].classes + "" == attrs[k].classes;
  }

  /** Applying `xs + ys` is applying `xs`, then `ys`. */
  lemma {:induction false} ApplyIdsConcat(children: map<string, seq<string>>, rank: map<string, nat>,
                                          attrs: map<string, Attrs>, s: StatusOption, xs: seq<string>, ys: seq<string>)
    requires Ranked(children, rank) && attrs.Keys == children.Keys
    ensures ApplyIds(children, rank, attrs, s, xs + ys) ==
            ApplyIds(children, rank, ApplyIds(children, rank, attrs, s, xs), s, ys)
    decreases |ys|
  {
    if ys == [] {
      assert xs + ys == xs;
    } else {
      var init := ys[..|ys| - 1];
      assert (xs + ys)[..|xs + ys| - 1] == xs + init;
      assert (xs + ys)[|xs + ys| - 1] == ys[|ys| - 1];
      ApplyIdsConcat(children, rank, attrs, s, xs, init);
    }
  }

  /** Coverage depends only on which ids a batch holds, not on their order or repeats. */
  lemma CoveredSameIds(children: map<string, seq<string>>, rank: map<string, nat>,
                       xs: seq<string>, ys: seq<string>, k: string)
    requires Ranked(children, rank)
    requires forall x :: x in xs <==> x in ys
    ensures Covered(children, rank, xs, k) <==> Covered(children, rank, ys, k)
  {
    if Covered(children, rank, xs, k) {
      var j :| 0 <= j < |xs| && xs[j] in children && k in Subtree(children, rank, xs[j]);
      assert xs[j] in ys;
      var i :| 0 <= i < |ys| && ys[i] == xs[j];
    }
    if Covered(children, rank, ys, k) {
      var j :| 0 <= j < |ys| && ys[j] in children && k in Subtree(children, rank, ys[j]);
      assert ys[j] in xs;
      var i :| 0 <= i < |xs| && xs[i] == ys[j];
    }
  }

  /**
   * Restore reproduces the session's content attributes: replaying the merged
   * stored list on the course as it was gives every content object the same
   * flags as the session's calls did one after the other (first the ids stored
   * before, then the new batch). Under a policy without a marker class the
   * objects are equal outright; with one, the marker appears once per occurrence
   * in the replayed list instead. This is about the content objects only: the
   * course's `_requireAssessmentCompleted` flag is not part of it, and under
   * `optional` or `complete` restore does not clear it again (see
   * `RestoreLeavesAvailablePage` in module `Diagnostic`).
   */
  lemma ReplayMatchesSession(children: map<string, seq<string>>, rank: map<string, nat>,
                             attrs: map<string, Attrs>, s: StatusOption, prev: seq<string>, ids: seq<string>, k: string)
    requires Ranked(children, rank) && attrs.Keys == children.Keys && k in attrs
    ensures var replay := ApplyIds(children, rank, attrs, s, AppendNew(prev, ids))[k];
      var session := ApplyIds(children, rank, ApplyIds(children, rank, attrs, s, prev), s, ids)[k];
      && replay.(classes := "") == session.(classes := "")
      && (!Marks(s) ==> replay == session)
  {
    ApplyIdsConcat(children, rank, attrs, s, prev, ids);
    AppendNewElements(prev, ids);
    CoveredSameIds(children, rank, AppendNew(prev, ids), prev + ids, k);
    ApplyIdsAt(children, rank, attrs, s, AppendNew(prev, ids), k);
    ApplyIdsAt(children, rank, attrs, s, prev + ids, k);
  }

  /** The stored id list, empty when nothing was stored yet. */
  function StoredIds(stored: Option<seq<string>>): seq<string> {
    if stored.Some? then stored.value else []
  }

  /** The store after `checkContentStatusSetting(ids, saveChanges)`. */
  function Persisted(stored: Option<seq<string>>, ids: seq<string>, saveChanges: bool): Option<seq<string>> {
    if saveChanges && ids != [] then Some(AppendNew(StoredIds(stored), ids)) else stored
  }

  /** The number of flushes of the store that call makes. */
  function Flushes(ids: seq<string>, saveChanges: bool): nat {
    if saveChanges && ids != [] then 1 else 0
  }

  /**
   * Persistence merge: a saving call keeps what was stored as a prefix, adds
   * every id of the batch, adds no duplicate, and saving the same batch again
   * leaves the list as it is; a call that does not save, or that has no ids,
   * leaves the store as it is.
   */
  lemma PersistedMerge(stored: Option<seq<string>>, ids: seq<string>, saveChanges: bool)
    ensures !saveChanges || ids == [] ==> Persisted(stored, ids, saveChanges) == stored
    ensures saveChanges && ids != [] ==>
      var r := Persisted(stored, ids, saveChanges).value;
      && |StoredIds(stored)| <= |r| && r[..|StoredIds(stored)|] == StoredIds(stored)
      && (forall i :: 0 <= i < |ids| ==> ids[i] in r)
      && (NoDuplicates(StoredIds(stored)) ==> NoDuplicates(r))
      && Persisted(Persisted(stored, ids, saveChanges), ids, saveChanges) == Persisted(stored, ids, saveChanges)
  {
    if saveChanges && ids != [] {
      var acc := StoredIds(stored);
      AppendNewShape(acc, ids);
      AppendNewElements(acc, ids);
      if NoDuplicates(acc) {
        AppendNewNoDuplicates(acc, ids);
      }
      AppendNewIdempotent(acc, ids);
    }
  }
}

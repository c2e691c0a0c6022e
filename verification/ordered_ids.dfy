/**
 * Ordered id lists without repeats: the `adaptiveContent` list kept in offline
 * storage, and a list of blocks with duplicates removed by identity.
 */
module OrderedIds {

  /** No id occurs twice. */
  predicate NoDuplicates(s: seq<string>) {
    forall i, j :: 0 <= i < j < |s| ==> s[i] != s[j]
  }

  /**
   * `acc` followed by each id of `xs` that is not yet present, taken one id at a
   * time: an `includes` test, then a `push` when the id is new.
   */
  function AppendNew(acc: seq<string>, xs: seq<string>): seq<string>
    decreases |xs|
  {
    if xs == [] then acc
    else
      var r := AppendNew(acc, xs[..|xs| - 1]);
      if xs[|xs| - 1] in r then r else r + [xs[|xs| - 1]]
  }

  /** `xs` with duplicates removed, first occurrences kept in order. */
  function Uniq(xs: seq<string>): seq<string> {
    AppendNew([], xs)
  }

  /** An id is in the merged list exactly when it was already there or is being added. */
  lemma {:induction false} AppendNewElements(acc: seq<string>, xs: seq<string>)
    ensures forall x :: x in AppendNew(acc, xs) <==> x in acc || x in xs
    decreases |xs|
  {
    if xs != [] {
      var init := xs[..|xs| - 1];
      AppendNewElements(acc, init);
      assert xs == init + [xs[|xs| - 1]];
    }
  }

  /**
   * The merge keeps `acc` as a prefix and appends only ids of `xs` that are not in
   * `acc`, none of them twice.
   */
  lemma {:induction false} AppendNewShape(acc: seq<string>, xs: seq<string>)
    ensures var r := AppendNew(acc, xs);
      && |acc| <= |r| && r[..|acc|] == acc
      && (forall i :: |acc| <= i < |r| ==> r[i] !in acc && r[i] in xs)
      && NoDuplicates(r[|acc|..])
    decreases |xs|
  {
    if xs != [] {
      var init, last := xs[..|xs| - 1], xs[|xs| - 1];
      assert xs == init + [last];
      AppendNewShape(acc, init);
      var r0 := AppendNew(acc, init);
      if last !in r0 {
        var r := r0 + [last];
        assert r[..|acc|] == r0[..|acc|];
        assert r[|acc|..] == r0[|acc|..] + [last];
        assert last !in r0[|acc|..];
      }
    }
  }

  /** With no duplicates to start from, the merged list has none. */
  lemma AppendNewNoDuplicates(acc: seq<string>, xs: seq<string>)
    requires NoDuplicates(acc)
    ensures NoDuplicates(AppendNew(acc, xs))
  {
    var r := AppendNew(acc, xs);
    AppendNewShape(acc, xs);
    forall i, j | 0 <= i < j < |r| ensures r[i] != r[j] {
      if j < |acc| {
        assert r[i] == acc[i] && r[j] == acc[j];
      } else if i < |acc| {
        assert r[i] == acc[i];
      } else {
        assert r[i] == r[|acc|..][i - |acc|] && r[j] == r[|acc|..][j - |acc|];
      }
    }
  }

  /** Merging ids that are all present already leaves the list as it is. */
  lemma {:induction false} AppendNewAllPresent(acc: seq<string>, xs: seq<string>)
    requires forall i :: 0 <= i < |xs| ==> xs[i] in acc
    ensures AppendNew(acc, xs) == acc
    decreases |xs|
  {
    if xs != [] {
      AppendNewAllPresent(acc, xs[..|xs| - 1]);
    }
  }

  /** Saving the same ids a second time adds nothing. */
  lemma AppendNewIdempotent(acc: seq<string>, xs: seq<string>)
    ensures AppendNew(AppendNew(acc, xs), xs) == AppendNew(acc, xs)
  {
    AppendNewElements(acc, xs);
    AppendNewAllPresent(AppendNew(acc, xs), xs);
  }

  /** Merging `xs + ys` is merging `xs`, then `ys`. */
  lemma {:induction false} AppendNewConcat(acc: seq<string>, xs: seq<string>, ys: seq<string>)
    ensures AppendNew(acc, xs + ys) == AppendNew(AppendNew(acc, xs), ys)
    decreases |ys|
  {
    if ys == [] {
      assert xs + ys == xs;
    } else {
      var init := ys[..|ys| - 1];
      assert (xs + ys)[..|xs + ys| - 1] == xs + init;
      assert (xs + ys)[|xs + ys| - 1] == ys[|ys| - 1];
      AppendNewConcat(acc, xs, init);
    }
  }
}

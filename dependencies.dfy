/**
 * The `dependencies` property: the bundles' dependency sections merged, in
 * list order, into three initially empty classes. The merge of one section
 * (`merge_deps`) is not part of this model; it is a parameter that either
 * yields the merged manifest or reports a conflict with a message. The first
 * conflict aborts, its message extended with the offending bundle's path.
 */
module Dependencies {
  import opened Bundles

  /** What `merge_deps(res, deps)` does: `res` updated, or a
      `MergeConflictError` with its message. */
  datatype MergeOutcome = Merged(manifest: Manifest) | Conflict(message: string)

  type Merge = (Manifest, Manifest) -> MergeOutcome

  /** The three dependency classes `package.json` knows. */
  const Classes: set<string> := {"dependencies", "devDependencies", "peerDependencies"}

  /** The accumulator before any bundle: every class present and empty. */
  function Initial(): (r: Manifest)
    ensures r.Keys == Classes
    ensures forall c :: c in r ==> r[c] == map[]
  {
    map["dependencies" := map[], "devDependencies" := map[], "peerDependencies" := map[]]
  }

  /** The message of the re-raised error: the merge's message, then the path
      of the bundle whose section conflicted. */
  function Annotated(message: string, bundlePath: string): (r: string)
    ensures |r| > |message| + |bundlePath|
    ensures r[..|message|] == message
    ensures r[|r| - |bundlePath|..] == bundlePath
  {
    message + ". Conflicting dependency found in " + bundlePath
  }

  /** The loop after the first `k` bundles: the accumulator, or the error
      that aborted it. */
  function MergedFirst(bs: seq<Bundle>, k: int, merge: Merge): Result<Manifest>
    requires 0 <= k <= |bs|
  {
    if k == 0 then Ok(Initial())
    else
      var prev := MergedFirst(bs, k - 1, merge);
      if prev.Err? then prev
      else
        match merge(prev.value, bs[k - 1].dependencies)
        case Merged(m) => Ok(m)
        case Conflict(msg) => Err(MergeConflict(Annotated(msg, bs[k - 1].path)))
  }

  /** Bundle `k` is where the merge conflicts: every bundle before it merged,
      and merging its section into their result reports a conflict. */
  predicate ConflictAt(bs: seq<Bundle>, k: int, merge: Merge) {
    0 <= k < |bs| && MergedFirst(bs, k, merge).Ok?
    && merge(MergedFirst(bs, k, merge).value, bs[k].dependencies).Conflict?
  }

  /** The error `dependencies` raises for a conflict at bundle `k`. */
  function ConflictError(bs: seq<Bundle>, k: int, merge: Merge): Error
    requires ConflictAt(bs, k, merge)
  {
    MergeConflict(Annotated(merge(MergedFirst(bs, k, merge).value, bs[k].dependencies).message, bs[k].path))
  }

  /** `dependencies`: one merge per bundle into `res`, in list order. It
      fails exactly when some bundle's merge conflicts, and then with the
      annotated message of the first such bundle. */
  method Dependencies(bs: seq<Bundle>, merge: Merge) returns (r: Result<Manifest>)
    ensures r == MergedFirst(bs, |bs|, merge)
    ensures r.Ok? <==> forall k :: 0 <= k < |bs| ==> !ConflictAt(bs, k, merge)
    ensures r.Err? ==> exists k :: ConflictAt(bs, k, merge) && r.error == ConflictError(bs, k, merge)
  {
    var res := Initial();
    var k := 0;
    while k < |bs|
      invariant 0 <= k <= |bs|
      invariant MergedFirst(bs, k, merge) == Ok(res)
    {
      match merge(res, bs[k].dependencies) {
        case Conflict(msg) =>
          r := Err(MergeConflict(Annotated(msg, bs[k].path)));
          ErrPersists(bs, k + 1, |bs|, merge);
          MergedMeaning(bs, |bs|, merge);
          return;
        case Merged(m) =>
          res := m;
      }
      k := k + 1;
    }
    r := Ok(res);
    MergedMeaning(bs, |bs|, merge);
  }

  // ---- Properties of the fold ----

  /** Once the merge has failed, later bundles change nothing. */
  lemma {:induction false} ErrPersists(bs: seq<Bundle>, k: int, n: int, merge: Merge)
    requires 0 <= k <= n <= |bs|
    requires MergedFirst(bs, k, merge).Err?
    ensures MergedFirst(bs, n, merge) == MergedFirst(bs, k, merge)
    decreases n - k
  {
    if k < n {
      ErrPersists(bs, k + 1, n, merge);
    }
  }

  /** The fold succeeds exactly when no bundle before `n` conflicts, and
      fails with the error of the one that does. */
  lemma {:induction false} MergedMeaning(bs: seq<Bundle>, n: int, merge: Merge)
    requires 0 <= n <= |bs|
    ensures MergedFirst(bs, n, merge).Ok? <==> forall k :: 0 <= k < n ==> !ConflictAt(bs, k, merge)
    ensures MergedFirst(bs, n, merge).Err? ==>
      exists k :: 0 <= k < n && ConflictAt(bs, k, merge)
                  && MergedFirst(bs, n, merge).error == ConflictError(bs, k, merge)
  {
    if n > 0 {
      MergedMeaning(bs, n - 1, merge);
      if MergedFirst(bs, n - 1, merge).Ok? {
        if MergedFirst(bs, n, merge).Err? {
          assert ConflictAt(bs, n - 1, merge);
        }
      }
    }
  }

  /** At most one bundle is blamed: a conflict at `k` makes every later fold
      fail, so no later bundle sees a successful merge before it. */
  lemma ConflictUnique(bs: seq<Bundle>, k1: int, k2: int, merge: Merge)
    requires ConflictAt(bs, k1, merge) && ConflictAt(bs, k2, merge)
    ensures k1 == k2
  {
    if k1 < k2 {
      ErrPersists(bs, k1 + 1, k2, merge);
    } else if k2 < k1 {
      ErrPersists(bs, k2 + 1, k1, merge);
    }
  }

  /** Bundles appended after the first `k` do not change how those merge. */
  lemma {:induction false} MergedPrefix(bs: seq<Bundle>, extra: seq<Bundle>, k: int, merge: Merge)
    requires 0 <= k <= |bs|
    ensures MergedFirst(bs + extra, k, merge) == MergedFirst(bs, k, merge)
  {
    if k > 0 {
      MergedPrefix(bs, extra, k - 1, merge);
      assert (bs + extra)[k - 1] == bs[k - 1];
    }
  }

  /** A list whose merge already conflicts still does with bundles appended,
      and with the same error. */
  lemma ConflictSurvivesAppend(bs: seq<Bundle>, extra: seq<Bundle>, merge: Merge)
    requires MergedFirst(bs, |bs|, merge).Err?
    ensures MergedFirst(bs + extra, |bs + extra|, merge) == MergedFirst(bs, |bs|, merge)
  {
    MergedPrefix(bs, extra, |bs|, merge);
    ErrPersists(bs + extra, |bs|, |bs + extra|, merge);
  }

  /** A merge that never conflicts makes `dependencies` succeed. */
  lemma {:induction false} NoConflictNoError(bs: seq<Bundle>, n: int, merge: Merge)
    requires 0 <= n <= |bs|
    requires forall a, b :: merge(a, b).Merged?
    ensures MergedFirst(bs, n, merge).Ok?
  {
    if n > 0 {
      NoConflictNoError(bs, n - 1, merge);
    }
  }
}

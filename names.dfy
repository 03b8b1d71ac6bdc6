/**
 * The `entry` and `aliases` properties of a bundle project: the union of the
 * bundles' name maps, failing on the first name that a later bundle
 * contributes again. The test is on the name alone, against the names of the
 * EARLIER bundles only (the union grows once a whole bundle has been read), so
 * re-contributing the same name with the same path is still a conflict.
 *
 * `Collected` and `ClaimFirst` are the two loops written as folds; the method
 * `CollectNames` is proved to compute them. `UnionOfFirst`, `OwnersOfFirst`
 * and `RepeatFree` say the same without the loops' early exit, and the lemmas
 * connect the two readings and say what they mean for the bundle list.
 */
module Names {
  import opened Bundles

  /** Who first contributed a name: the path it maps to and the bundle's path
      (an entry of the `paths` dict). */
  datatype Owner = Owner(path: string, bundle: string)

  /** The names a name map declares. This equals `ToMap(kvs).Keys` (lemma
      `ToMapKeys`); it is kept as its own set so that the repeat test, which
      reads names only, never unfolds the map updates of `ToMap`. */
  function Keys(kvs: NameMap): set<string> {
    if kvs == [] then {} else Keys(kvs[..|kvs| - 1]) + {kvs[|kvs| - 1].0}
  }

  /** `dict(kvs)`, or `d.update(kvs)` into an empty `d`: a later pair wins. */
  function ToMap(kvs: NameMap): map<string, string> {
    if kvs == [] then map[]
    else ToMap(kvs[..|kvs| - 1])[kvs[|kvs| - 1].0 := kvs[|kvs| - 1].1]
  }

  /** `owners` after each pair of `kvs` has been recorded as owned by the
      bundle at path `bundle`. */
  function Claim(owners: map<string, Owner>, kvs: NameMap, bundle: string): map<string, Owner> {
    if kvs == [] then owners
    else Claim(owners, kvs[..|kvs| - 1], bundle)[kvs[|kvs| - 1].0 := Owner(kvs[|kvs| - 1].1, bundle)]
  }

  /** The union of the name maps of the first `k` bundles. */
  function UnionOfFirst(bs: seq<Bundle>, k: int, kind: NameKind): map<string, string>
    requires 0 <= k <= |bs|
  {
    if k == 0 then map[] else UnionOfFirst(bs, k - 1, kind) + ToMap(NamesOf(bs[k - 1], kind))
  }

  /** The owner records after the first `k` bundles. */
  function OwnersOfFirst(bs: seq<Bundle>, k: int, kind: NameKind): map<string, Owner>
    requires 0 <= k <= |bs|
  {
    if k == 0 then map[]
    else Claim(OwnersOfFirst(bs, k - 1, kind), NamesOf(bs[k - 1], kind), bs[k - 1].path)
  }

  /** No bundle among the first `k` declares a name of an earlier one. */
  predicate RepeatFree(bs: seq<Bundle>, k: int, kind: NameKind)
    requires 0 <= k <= |bs|
  {
    k == 0 || (RepeatFree(bs, k - 1, kind) && Keys(NamesOf(bs[k - 1], kind)) !! UnionOfFirst(bs, k - 1, kind).Keys)
  }

  /** Bundle `k` holds the first repeat, at its pair `j`: the bundles before
      it repeat nothing, its pairs before `j` are new, and pair `j` is not. */
  predicate FirstRepeatAt(bs: seq<Bundle>, kind: NameKind, k: int, j: int) {
    && 0 <= k < |bs|
    && 0 <= j < |NamesOf(bs[k], kind)|
    && RepeatFree(bs, k, kind)
    && (forall j' :: 0 <= j' < j ==> NamesOf(bs[k], kind)[j'].0 !in UnionOfFirst(bs, k, kind))
    && NamesOf(bs[k], kind)[j].0 in UnionOfFirst(bs, k, kind)
  }

  /** The error raised for the first repeat: the name, the earlier owner's
      path and bundle path, then the later path and bundle path. */
  function RepeatReport(bs: seq<Bundle>, kind: NameKind, k: int, j: int): Error
    requires FirstRepeatAt(bs, kind, k, j)
  {
    var (n, p) := NamesOf(bs[k], kind)[j];
    OwnersKeys(bs, k, kind);
    var prev := OwnersOfFirst(bs, k, kind)[n];
    DuplicateName(kind, n, prev.path, prev.bundle, p, bs[k].path)
  }

  // ---- The two loops as folds ----

  /** The pair of dicts the loops keep: the union so far and, for each of its
      names, who contributed it first. */
  datatype Scan = Scan(merged: map<string, string>, owners: map<string, Owner>)

  /** The inner loop over the first `j` pairs of one bundle's name map: each
      name is recorded as owned by `bundle`, until one is already in `merged`,
      which is the error naming its recorded owner. */
  function ClaimFirst(kind: NameKind, merged: map<string, string>, owners: map<string, Owner>,
                      names: NameMap, j: int, bundle: string): (r: Result<map<string, Owner>>)
    requires 0 <= j <= |names|
    requires merged.Keys <= owners.Keys
    ensures r.Ok? ==> owners.Keys <= r.value.Keys
  {
    if j == 0 then Ok(owners)
    else
      match ClaimFirst(kind, merged, owners, names, j - 1, bundle)
      case Err(e) => Err(e)
      case Ok(o) =>
        var (n, p) := names[j - 1];
        if n in merged then Err(DuplicateName(kind, n, o[n].path, o[n].bundle, p, bundle))
        else Ok(o[n := Owner(p, bundle)])
  }

  /** The outer loop over the first `k` bundles. */
  function Collected(bs: seq<Bundle>, k: int, kind: NameKind): (r: Result<Scan>)
    requires 0 <= k <= |bs|
    ensures r.Ok? ==> r.value.merged.Keys <= r.value.owners.Keys
  {
    if k == 0 then Ok(Scan(map[], map[]))
    else
      match Collected(bs, k - 1, kind)
      case Err(e) => Err(e)
      case Ok(s) =>
        var names, bundle := NamesOf(bs[k - 1], kind), bs[k - 1].path;
        match ClaimFirst(kind, s.merged, s.owners, names, |names|, bundle)
        case Err(e) => Err(e)
        case Ok(o) =>
          ClaimFirstOk(kind, s.merged, s.owners, names, |names|, bundle);
          ClaimKeys(s.owners, names, bundle);
          ToMapKeys(names);
          assert names[..|names|] == names;
          Ok(Scan(s.merged + ToMap(names), o))
  }

  /** What the loops return: the union, or the first failure. */
  function Outcome(bs: seq<Bundle>, kind: NameKind): Result<map<string, string>> {
    match Collected(bs, |bs|, kind)
    case Ok(s) => Ok(s.merged)
    case Err(e) => Err(e)
  }

  // ---- The loops ----

  /** The loop shared by `entry` and `aliases`: bundle by bundle, record who
      contributes each name, stop at the first name an earlier bundle
      declared, and otherwise add the bundle's map to the union. */
  method CollectNames(bs: seq<Bundle>, kind: NameKind) returns (r: Result<map<string, string>>)
    ensures r == Outcome(bs, kind)
  {
    var merged: map<string, string> := map[];
    var owners: map<string, Owner> := map[];
    var k := 0;
    while k < |bs|
      invariant 0 <= k <= |bs|
      invariant Collected(bs, k, kind) == Ok(Scan(merged, owners))
    {
      var b := bs[k];
      var names := NamesOf(b, kind);
      ghost var before := owners;
      var j := 0;
      while j < |names|
        invariant 0 <= j <= |names|
        invariant Collected(bs, k, kind) == Ok(Scan(merged, before))
        invariant ClaimFirst(kind, merged, before, names, j, b.path) == Ok(owners)
      {
        var name, path := names[j].0, names[j].1;
        if name in merged {
          RepeatMet(bs, k, kind, merged, before, owners, j);
          var prev := owners[name];
          r := Err(DuplicateName(kind, name, prev.path, prev.bundle, path, b.path));
          return;
        }
        ClaimNext(kind, merged, before, names, j, b.path, owners);
        owners := owners[name := Owner(path, b.path)];
        j := j + 1;
      }
      CollectedNext(bs, k, kind, merged, before, owners);
      merged := merged + ToMap(names);
      k := k + 1;
    }
    r := Ok(merged);
  }

  /** `entry`: the union of the bundles' entry maps, or the first repeated
      entry name. */
  method Entry(bs: seq<Bundle>) returns (r: Result<map<string, string>>)
    requires DictsOfNames(bs, EntryName)
    ensures r.Ok? <==> RepeatFree(bs, |bs|, EntryName)
    ensures r.Ok? ==> r.value == UnionOfFirst(bs, |bs|, EntryName)
    ensures r.Err? ==> exists k, j :: FirstRepeatAt(bs, EntryName, k, j) && r.error == RepeatReport(bs, EntryName, k, j)
  {
    r := CollectNames(bs, EntryName);
    OutcomeMeaning(bs, EntryName);
  }

  /** `aliases`: the union of the bundles' alias maps, or the first repeated
      alias. */
  method Aliases(bs: seq<Bundle>) returns (r: Result<map<string, string>>)
    requires DictsOfNames(bs, AliasName)
    ensures r.Ok? <==> RepeatFree(bs, |bs|, AliasName)
    ensures r.Ok? ==> r.value == UnionOfFirst(bs, |bs|, AliasName)
    ensures r.Err? ==> exists k, j :: FirstRepeatAt(bs, AliasName, k, j) && r.error == RepeatReport(bs, AliasName, k, j)
  {
    r := CollectNames(bs, AliasName);
    OutcomeMeaning(bs, AliasName);
  }

  /** The inner loop's step over a new name. */
  lemma ClaimNext(kind: NameKind, merged: map<string, string>, owners: map<string, Owner>,
                  names: NameMap, j: int, bundle: string, o: map<string, Owner>)
    requires 0 <= j < |names| && merged.Keys <= owners.Keys
    requires ClaimFirst(kind, merged, owners, names, j, bundle) == Ok(o)
    requires names[j].0 !in merged
    ensures ClaimFirst(kind, merged, owners, names, j + 1, bundle) == Ok(o[names[j].0 := Owner(names[j].1, bundle)])
  {
  }

  /** The outer loop's step over a bundle whose names are all new. */
  lemma CollectedNext(bs: seq<Bundle>, k: int, kind: NameKind,
                      merged: map<string, string>, before: map<string, Owner>, owners: map<string, Owner>)
    requires 0 <= k < |bs| && Collected(bs, k, kind) == Ok(Scan(merged, before))
    requires ClaimFirst(kind, merged, before, NamesOf(bs[k], kind), |NamesOf(bs[k], kind)|, bs[k].path) == Ok(owners)
    ensures Collected(bs, k + 1, kind) == Ok(Scan(merged + ToMap(NamesOf(bs[k], kind)), owners))
  {
  }

  /** The loop's exit when bundle `k`'s pair `j` is already merged: the error
      it builds is what the folds return. */
  lemma RepeatMet(bs: seq<Bundle>, k: int, kind: NameKind,
                  merged: map<string, string>, before: map<string, Owner>, owners: map<string, Owner>, j: int)
    requires 0 <= k < |bs|
    requires Collected(bs, k, kind) == Ok(Scan(merged, before))
    requires 0 <= j < |NamesOf(bs[k], kind)|
    requires ClaimFirst(kind, merged, before, NamesOf(bs[k], kind), j, bs[k].path) == Ok(owners)
    requires NamesOf(bs[k], kind)[j].0 in merged
    ensures var names, n := NamesOf(bs[k], kind), NamesOf(bs[k], kind)[j].0;
      && n in owners
      && Outcome(bs, kind) == Err(DuplicateName(kind, n, owners[n].path, owners[n].bundle, names[j].1, bs[k].path))
  {
    var names, n := NamesOf(bs[k], kind), NamesOf(bs[k], kind)[j].0;
    assert n in owners;
    var e := DuplicateName(kind, n, owners[n].path, owners[n].bundle, names[j].1, bs[k].path);
    assert ClaimFirst(kind, merged, before, names, j + 1, bs[k].path) == Err(e);
    ClaimErrPersists(kind, merged, before, names, j + 1, |names|, bs[k].path);
    assert Collected(bs, k + 1, kind) == Err(e);
    CollectedErrPersists(bs, k + 1, |bs|, kind);
  }

  // ---- What the folds compute ----

  /** The inner loop fails exactly when one of the pairs read names something
      already merged; otherwise it has claimed every name it read. */
  lemma {:induction false} ClaimFirstOk(kind: NameKind, merged: map<string, string>, owners: map<string, Owner>,
                                        names: NameMap, j: int, bundle: string)
    requires 0 <= j <= |names| && merged.Keys <= owners.Keys
    ensures ClaimFirst(kind, merged, owners, names, j, bundle).Ok? <==> Keys(names[..j]) !! merged.Keys
    ensures ClaimFirst(kind, merged, owners, names, j, bundle).Ok? ==>
      ClaimFirst(kind, merged, owners, names, j, bundle).value == Claim(owners, names[..j], bundle)
  {
    if j > 0 {
      ClaimFirstOk(kind, merged, owners, names, j - 1, bundle);
      KeysStep(names, j - 1);
      ClaimStep(owners, names, j - 1, bundle);
    }
  }

  /** Once the inner loop has failed, reading more pairs changes nothing. */
  lemma {:induction false} ClaimErrPersists(kind: NameKind, merged: map<string, string>, owners: map<string, Owner>,
                                            names: NameMap, j: int, j2: int, bundle: string)
    requires 0 <= j <= j2 <= |names| && merged.Keys <= owners.Keys
    requires ClaimFirst(kind, merged, owners, names, j, bundle).Err?
    ensures ClaimFirst(kind, merged, owners, names, j2, bundle) == ClaimFirst(kind, merged, owners, names, j, bundle)
    decreases j2
  {
    if j < j2 {
      ClaimErrPersists(kind, merged, owners, names, j, j2 - 1, bundle);
    }
  }

  /** Once a bundle has failed, the later bundles change nothing. */
  lemma {:induction false} CollectedErrPersists(bs: seq<Bundle>, k: int, k2: int, kind: NameKind)
    requires 0 <= k <= k2 <= |bs|
    requires Collected(bs, k, kind).Err?
    ensures Collected(bs, k2, kind) == Collected(bs, k, kind)
    decreases k2
  {
    if k < k2 {
      CollectedErrPersists(bs, k, k2 - 1, kind);
    }
  }

  /** While nothing is repeated the loops keep `UnionOfFirst` and
      `OwnersOfFirst`, and they fail exactly when something is. */
  lemma {:induction false} CollectedOk(bs: seq<Bundle>, k: int, kind: NameKind)
    requires 0 <= k <= |bs|
    ensures Collected(bs, k, kind).Ok? <==> RepeatFree(bs, k, kind)
    ensures Collected(bs, k, kind).Ok? ==>
      Collected(bs, k, kind).value == Scan(UnionOfFirst(bs, k, kind), OwnersOfFirst(bs, k, kind))
  {
    if k > 0 {
      CollectedOk(bs, k - 1, kind);
      if Collected(bs, k - 1, kind).Ok? {
        var names := NamesOf(bs[k - 1], kind);
        OwnersKeys(bs, k - 1, kind);
        ClaimFirstOk(kind, UnionOfFirst(bs, k - 1, kind), OwnersOfFirst(bs, k - 1, kind), names, |names|, bs[k - 1].path);
        assert names[..|names|] == names;
      }
    }
  }

  /** The inner loop fails at the first pair whose name is already merged,
      naming the owner recorded for it. */
  lemma {:induction false} ClaimErrAt(kind: NameKind, merged: map<string, string>, owners: map<string, Owner>,
                                      names: NameMap, j: int, bundle: string) returns (i: int)
    requires 0 <= j <= |names| && merged.Keys <= owners.Keys
    requires ClaimFirst(kind, merged, owners, names, j, bundle).Err?
    ensures 0 <= i < j
    ensures Keys(names[..i]) !! merged.Keys && names[i].0 in merged
    ensures var o, n := Claim(owners, names[..i], bundle), names[i].0;
      n in o && ClaimFirst(kind, merged, owners, names, j, bundle).error
        == DuplicateName(kind, n, o[n].path, o[n].bundle, names[i].1, bundle)
    decreases j
  {
    if ClaimFirst(kind, merged, owners, names, j - 1, bundle).Err? {
      i := ClaimErrAt(kind, merged, owners, names, j - 1, bundle);
    } else {
      i := j - 1;
      ClaimFirstOk(kind, merged, owners, names, i, bundle);
    }
  }

  /** A failure of the loops is the report of the first repeat. */
  lemma {:induction false} CollectedErr(bs: seq<Bundle>, k: int, kind: NameKind)
    requires 0 <= k <= |bs| && DictsOfNames(bs, kind)
    requires Collected(bs, k, kind).Err?
    ensures exists k', j :: FirstRepeatAt(bs, kind, k', j) && Collected(bs, k, kind).error == RepeatReport(bs, kind, k', j)
  {
    if Collected(bs, k - 1, kind).Err? {
      CollectedErr(bs, k - 1, kind);
    } else {
      var j := FailsAt(bs, k - 1, kind);
    }
  }

  /** When the loops fail at bundle `k`, the failure is the first repeat. */
  lemma FailsAt(bs: seq<Bundle>, k: int, kind: NameKind) returns (j: int)
    requires 0 <= k < |bs| && DictsOfNames(bs, kind)
    requires Collected(bs, k, kind).Ok? && Collected(bs, k + 1, kind).Err?
    ensures FirstRepeatAt(bs, kind, k, j) && Collected(bs, k + 1, kind).error == RepeatReport(bs, kind, k, j)
  {
    CollectedOk(bs, k, kind);
    var names := NamesOf(bs[k], kind);
    var union, owners := UnionOfFirst(bs, k, kind), OwnersOfFirst(bs, k, kind);
    assert Collected(bs, k + 1, kind).error == ClaimFirst(kind, union, owners, names, |names|, bs[k].path).error;
    j := ClaimErrAt(kind, union, owners, names, |names|, bs[k].path);
    RepeatFoundAt(bs, kind, k, j);
    RepeatReportFromClaims(bs, kind, k, j);
  }

  /** What `entry` and `aliases` return: the union of the bundles' maps when
      no name is declared by two bundles, and otherwise the report of the
      first repeat. */
  lemma OutcomeMeaning(bs: seq<Bundle>, kind: NameKind)
    requires DictsOfNames(bs, kind)
    ensures Outcome(bs, kind).Ok? <==> RepeatFree(bs, |bs|, kind)
    ensures Outcome(bs, kind).Ok? ==> Outcome(bs, kind).value == UnionOfFirst(bs, |bs|, kind)
    ensures Outcome(bs, kind).Err? ==>
      exists k, j :: FirstRepeatAt(bs, kind, k, j) && Outcome(bs, kind).error == RepeatReport(bs, kind, k, j)
  {
    CollectedOk(bs, |bs|, kind);
    if Collected(bs, |bs|, kind).Err? {
      CollectedErr(bs, |bs|, kind);
    }
  }

  /** A name the inner loop finds already in the union is the first repeat. */
  lemma RepeatFoundAt(bs: seq<Bundle>, kind: NameKind, k: int, j: int)
    requires 0 <= k < |bs| && 0 <= j < |NamesOf(bs[k], kind)|
    requires RepeatFree(bs, k, kind)
    requires Keys(NamesOf(bs[k], kind)[..j]) !! UnionOfFirst(bs, k, kind).Keys
    requires NamesOf(bs[k], kind)[j].0 in UnionOfFirst(bs, k, kind)
    ensures FirstRepeatAt(bs, kind, k, j)
  {
    var names := NamesOf(bs[k], kind);
    forall j' | 0 <= j' < j ensures names[j'].0 !in UnionOfFirst(bs, k, kind) {
      KeyIn(names[..j], j');
    }
  }

  /** The owner the loop reports for the first repeat is the one the bundles
      before it recorded: the offending bundle's own earlier pairs do not
      overwrite it. */
  lemma RepeatReportFromClaims(bs: seq<Bundle>, kind: NameKind, k: int, j: int)
    requires DictsOfNames(bs, kind) && FirstRepeatAt(bs, kind, k, j)
    ensures var names, n := NamesOf(bs[k], kind), NamesOf(bs[k], kind)[j].0;
      var owners := Claim(OwnersOfFirst(bs, k, kind), names[..j], bs[k].path);
      && n in owners
      && RepeatReport(bs, kind, k, j)
         == DuplicateName(kind, n, owners[n].path, owners[n].bundle, names[j].1, bs[k].path)
  {
    var names := NamesOf(bs[k], kind);
    FreshInPrefix(names, j);
    OwnersKeys(bs, k, kind);
    ClaimKeys(OwnersOfFirst(bs, k, kind), names[..j], bs[k].path);
    ClaimKeeps(OwnersOfFirst(bs, k, kind), names[..j], bs[k].path, names[j].0);
  }

  // ---- Facts about one name map ----

  lemma {:induction false} KeyIn(kvs: NameMap, j: int)
    requires 0 <= j < |kvs|
    ensures kvs[j].0 in Keys(kvs)
    decreases |kvs|
  {
    if j < |kvs| - 1 {
      KeyIn(kvs[..|kvs| - 1], j);
    }
  }

  lemma {:induction false} KeyAt(kvs: NameMap, n: string) returns (j: nat)
    requires n in Keys(kvs)
    ensures j < |kvs| && kvs[j].0 == n
    decreases |kvs|
  {
    var last := |kvs| - 1;
    if n == kvs[last].0 {
      j := last;
    } else {
      j := KeyAt(kvs[..last], n);
    }
  }

  lemma KeysStep(kvs: NameMap, j: int)
    requires 0 <= j < |kvs|
    ensures Keys(kvs[..j + 1]) == Keys(kvs[..j]) + {kvs[j].0}
  {
    assert kvs[..j + 1][..j] == kvs[..j];
  }

  lemma {:induction false} ToMapKeys(kvs: NameMap)
    ensures ToMap(kvs).Keys == Keys(kvs)
    decreases |kvs|
  {
    if kvs != [] {
      ToMapKeys(kvs[..|kvs| - 1]);
    }
  }

  lemma {:induction false} ClaimKeys(owners: map<string, Owner>, kvs: NameMap, bundle: string)
    ensures Claim(owners, kvs, bundle).Keys == owners.Keys + Keys(kvs)
    decreases |kvs|
  {
    if kvs != [] {
      ClaimKeys(owners, kvs[..|kvs| - 1], bundle);
    }
  }

  lemma ClaimStep(owners: map<string, Owner>, kvs: NameMap, j: int, bundle: string)
    requires 0 <= j < |kvs|
    ensures Claim(owners, kvs[..j + 1], bundle) == Claim(owners, kvs[..j], bundle)[kvs[j].0 := Owner(kvs[j].1, bundle)]
  {
    assert kvs[..j + 1][..j] == kvs[..j];
  }

  /** In a dict, the name at position `j` is not among the names before it. */
  lemma FreshInPrefix(kvs: NameMap, j: int)
    requires DistinctNames(kvs) && 0 <= j < |kvs|
    ensures kvs[j].0 !in Keys(kvs[..j])
  {
    if kvs[j].0 in Keys(kvs[..j]) {
      var a := KeyAt(kvs[..j], kvs[j].0);
    }
  }

  lemma {:induction false} ClaimKeeps(owners: map<string, Owner>, kvs: NameMap, bundle: string, n: string)
    requires n in owners && n !in Keys(kvs)
    ensures n in Claim(owners, kvs, bundle) && Claim(owners, kvs, bundle)[n] == owners[n]
    decreases |kvs|
  {
    if kvs != [] {
      ClaimKeeps(owners, kvs[..|kvs| - 1], bundle, n);
    }
  }

  /** In a dict, each pair is what `dict(kvs)` maps its name to. */
  lemma {:induction false} ToMapAt(kvs: NameMap, j: int)
    requires DistinctNames(kvs) && 0 <= j < |kvs|
    ensures kvs[j].0 in ToMap(kvs) && ToMap(kvs)[kvs[j].0] == kvs[j].1
    decreases |kvs|
  {
    var last := |kvs| - 1;
    if j < last {
      ToMapAt(kvs[..last], j);
    }
  }

  /** Every entry of `dict(kvs)` is one of its pairs. */
  lemma {:induction false} ToMapFrom(kvs: NameMap, n: string) returns (j: nat)
    requires n in ToMap(kvs)
    ensures j < |kvs| && kvs[j] == (n, ToMap(kvs)[n])
    decreases |kvs|
  {
    var last := |kvs| - 1;
    if n == kvs[last].0 {
      j := last;
    } else {
      j := ToMapFrom(kvs[..last], n);
    }
  }

  lemma {:induction false} ClaimAt(owners: map<string, Owner>, kvs: NameMap, bundle: string, n: string)
    requires n in Keys(kvs)
    ensures n in Claim(owners, kvs, bundle)
    ensures exists j :: 0 <= j < |kvs| && Claim(owners, kvs, bundle)[n] == Owner(kvs[j].1, bundle) && kvs[j].0 == n
    decreases |kvs|
  {
    var last := |kvs| - 1;
    if n != kvs[last].0 {
      ClaimAt(owners, kvs[..last], bundle, n);
      var j :| 0 <= j < last && Claim(owners, kvs[..last], bundle)[n] == Owner(kvs[..last][j].1, bundle) && kvs[..last][j].0 == n;
      assert kvs[j] == kvs[..last][j];
    }
  }

  /** A name has an owner record exactly when it is in the union. */
  lemma {:induction false} OwnersKeys(bs: seq<Bundle>, k: int, kind: NameKind)
    requires 0 <= k <= |bs|
    ensures OwnersOfFirst(bs, k, kind).Keys == UnionOfFirst(bs, k, kind).Keys
  {
    if k > 0 {
      OwnersKeys(bs, k - 1, kind);
      ClaimKeys(OwnersOfFirst(bs, k - 1, kind), NamesOf(bs[k - 1], kind), bs[k - 1].path);
      ToMapKeys(NamesOf(bs[k - 1], kind));
    }
  }

  // ---- What the folds mean for the whole bundle list ----

  predicate Declares(b: Bundle, kind: NameKind, n: string) {
    n in Keys(NamesOf(b, kind))
  }

  /** Some name is declared by two different bundles among the first `k`. */
  ghost predicate RepeatedWithin(bs: seq<Bundle>, k: int, kind: NameKind)
    requires k <= |bs|
  {
    exists i, j, n :: 0 <= i < j < k && Declares(bs[i], kind, n) && Declares(bs[j], kind, n)
  }

  /** The union of the first `k` bundles holds exactly the names they declare. */
  lemma {:induction false} UnionKeys(bs: seq<Bundle>, k: int, kind: NameKind, n: string)
    requires 0 <= k <= |bs|
    ensures n in UnionOfFirst(bs, k, kind) <==> exists i :: 0 <= i < k && Declares(bs[i], kind, n)
  {
    if k > 0 {
      UnionKeys(bs, k - 1, kind, n);
      ToMapKeys(NamesOf(bs[k - 1], kind));
    }
  }

  /** The loop's repeat test is the plain one: it passes exactly when no two
      different bundles declare the same name, whatever the paths. */
  lemma {:induction false} RepeatFreeIff(bs: seq<Bundle>, k: int, kind: NameKind)
    requires 0 <= k <= |bs|
    ensures RepeatFree(bs, k, kind) <==> !RepeatedWithin(bs, k, kind)
  {
    if k > 0 {
      RepeatFreeIff(bs, k - 1, kind);
      var last := k - 1;
      if !RepeatFree(bs, k, kind) && RepeatFree(bs, last, kind) {
        var n :| n in Keys(NamesOf(bs[last], kind)) && n in UnionOfFirst(bs, last, kind);
        UnionKeys(bs, last, kind, n);
        var i :| 0 <= i < last && Declares(bs[i], kind, n);
        assert Declares(bs[last], kind, n);
      }
      if RepeatedWithin(bs, k, kind) && !RepeatedWithin(bs, last, kind) {
        var i, j, n :| 0 <= i < j < k && Declares(bs[i], kind, n) && Declares(bs[j], kind, n);
        assert j == last;
        UnionKeys(bs, last, kind, n);
      }
    }
  }

  /** Two bundles declaring one name make the composition fail, even when
      they give it the same path. */
  lemma RepeatIgnoresPaths(bs: seq<Bundle>, kind: NameKind, i: int, j: int, n: string)
    requires 0 <= i < j < |bs|
    requires Declares(bs[i], kind, n) && Declares(bs[j], kind, n)
    ensures !RepeatFree(bs, |bs|, kind)
  {
    RepeatFreeIff(bs, |bs|, kind);
  }

  /** `m` holds exactly the pairs the first `k` bundles declare. */
  ghost predicate UnionOf(m: map<string, string>, bs: seq<Bundle>, k: int, kind: NameKind)
    requires k <= |bs|
  {
    && (forall n :: n in m ==> exists i, j :: 0 <= i < k && 0 <= j < |NamesOf(bs[i], kind)| && NamesOf(bs[i], kind)[j] == (n, m[n]))
    && (forall i, j :: 0 <= i < k && 0 <= j < |NamesOf(bs[i], kind)| ==>
          NamesOf(bs[i], kind)[j].0 in m && m[NamesOf(bs[i], kind)[j].0] == NamesOf(bs[i], kind)[j].1)
  }

  /** Without repeats, the union holds exactly the bundles' pairs. */
  lemma {:induction false} UnionIsExact(bs: seq<Bundle>, k: int, kind: NameKind)
    requires 0 <= k <= |bs|
    requires DictsOfNames(bs, kind) && RepeatFree(bs, k, kind)
    ensures UnionOf(UnionOfFirst(bs, k, kind), bs, k, kind)
  {
    if k > 0 {
      var last := k - 1;
      UnionIsExact(bs, last, kind);
      var prev, names := UnionOfFirst(bs, last, kind), NamesOf(bs[last], kind);
      var m := UnionOfFirst(bs, k, kind);
      ToMapKeys(names);
      forall n | n in m
        ensures exists i, j :: 0 <= i < k && 0 <= j < |NamesOf(bs[i], kind)| && NamesOf(bs[i], kind)[j] == (n, m[n])
      {
        if n in ToMap(names) {
          var j := ToMapFrom(names, n);
          assert NamesOf(bs[last], kind)[j] == (n, m[n]);
        }
      }
      forall i, j | 0 <= i < k && 0 <= j < |NamesOf(bs[i], kind)|
        ensures NamesOf(bs[i], kind)[j].0 in m && m[NamesOf(bs[i], kind)[j].0] == NamesOf(bs[i], kind)[j].1
      {
        if i == last {
          ToMapAt(names, j);
        } else {
          var n := NamesOf(bs[i], kind)[j].0;
          assert n in prev;
          assert n !in Keys(names);
        }
      }
    }
  }

  /** The owner recorded for a name is an earlier bundle that declared it,
      with the path that bundle gave it. */
  lemma {:induction false} OwnerDeclared(bs: seq<Bundle>, k: int, kind: NameKind, n: string)
    requires 0 <= k <= |bs|
    requires n in OwnersOfFirst(bs, k, kind)
    ensures exists i, j ::
      && 0 <= i < k && 0 <= j < |NamesOf(bs[i], kind)|
      && NamesOf(bs[i], kind)[j] == (n, OwnersOfFirst(bs, k, kind)[n].path)
      && OwnersOfFirst(bs, k, kind)[n].bundle == bs[i].path
  {
    var last := k - 1;
    var names := NamesOf(bs[last], kind);
    var before := OwnersOfFirst(bs, last, kind);
    ClaimKeys(before, names, bs[last].path);
    if n in Keys(names) {
      ClaimAt(before, names, bs[last].path, n);
    } else {
      ClaimKeeps(before, names, bs[last].path, n);
      OwnerDeclared(bs, last, kind, n);
    }
  }

  /** The error for a repeat names an earlier bundle that declares the same
      name, with that bundle's path for it; since the bundles before the
      offending one repeat nothing, that earlier bundle is the only one. */
  lemma RepeatReportBlames(bs: seq<Bundle>, kind: NameKind, k: int, j: int)
    requires FirstRepeatAt(bs, kind, k, j)
    ensures var e := RepeatReport(bs, kind, k, j);
      && Declares(bs[k], kind, e.name)
      && exists i, j' ::
        && 0 <= i < k && 0 <= j' < |NamesOf(bs[i], kind)|
        && NamesOf(bs[i], kind)[j'] == (e.name, e.prevPath) && e.prevBundle == bs[i].path
        && (forall i' :: 0 <= i' < k && Declares(bs[i'], kind, e.name) ==> i' == i)
  {
    var e := RepeatReport(bs, kind, k, j);
    KeyIn(NamesOf(bs[k], kind), j);
    OwnersKeys(bs, k, kind);
    OwnerDeclared(bs, k, kind, e.name);
    var i, j' :| 0 <= i < k && 0 <= j' < |NamesOf(bs[i], kind)|
      && NamesOf(bs[i], kind)[j'] == (e.name, e.prevPath) && e.prevBundle == bs[i].path;
    RepeatFreeIff(bs, k, kind);
    KeyIn(NamesOf(bs[i], kind), j');
    assert Declares(bs[i], kind, e.name);
    forall i' | 0 <= i' < k && Declares(bs[i'], kind, e.name) ensures i' == i {
    }
  }

  lemma {:induction false} RepeatFreePrefix(bs: seq<Bundle>, k: int, k': int, kind: NameKind)
    requires 0 <= k' <= k <= |bs|
    requires RepeatFree(bs, k, kind)
    ensures RepeatFree(bs, k', kind)
    decreases k - k'
  {
    if k' < k {
      RepeatFreePrefix(bs, k - 1, k', kind);
    }
  }

  /** Blame is determined by the bundle list: there is one first repeat. */
  lemma FirstRepeatUnique(bs: seq<Bundle>, kind: NameKind, k1: int, j1: int, k2: int, j2: int)
    requires FirstRepeatAt(bs, kind, k1, j1) && FirstRepeatAt(bs, kind, k2, j2)
    ensures k1 == k2 && j1 == j2
  {
    if k1 < k2 {
      RepeatFreePrefix(bs, k2, k1 + 1, kind);
      KeyIn(NamesOf(bs[k1], kind), j1);
    } else if k2 < k1 {
      RepeatFreePrefix(bs, k1, k2 + 1, kind);
      KeyIn(NamesOf(bs[k2], kind), j2);
    }
  }

  /** Every pair of one exact union is in another whose bundles include the
      first one's. */
  lemma UnionCovers(m1: map<string, string>, bs1: seq<Bundle>, m2: map<string, string>, bs2: seq<Bundle>, kind: NameKind)
    requires UnionOf(m1, bs1, |bs1|, kind) && UnionOf(m2, bs2, |bs2|, kind)
    requires forall b :: b in bs1 ==> b in bs2
    ensures forall n :: n in m1 ==> n in m2 && m2[n] == m1[n]
  {
    forall n | n in m1 ensures n in m2 && m2[n] == m1[n] {
      var i, j :| 0 <= i < |bs1| && 0 <= j < |NamesOf(bs1[i], kind)| && NamesOf(bs1[i], kind)[j] == (n, m1[n]);
      assert bs1[i] in bs2;
      var i2 :| 0 <= i2 < |bs2| && bs2[i2] == bs1[i];
      assert NamesOf(bs2[i2], kind)[j] == (n, m1[n]);
    }
  }

  /** Two maps holding each other's pairs are equal. */
  lemma SameMaps(m1: map<string, string>, m2: map<string, string>)
    requires forall n :: n in m1 ==> n in m2 && m2[n] == m1[n]
    requires forall n :: n in m2 ==> n in m1 && m1[n] == m2[n]
    ensures m1 == m2
  {
    assert m1.Keys == m2.Keys;
  }

  /** The union does not depend on the order of non-conflicting bundles, only
      on which bundles there are. */
  lemma UnionIgnoresOrder(bs1: seq<Bundle>, bs2: seq<Bundle>, kind: NameKind)
    requires DictsOfNames(bs1, kind) && DictsOfNames(bs2, kind)
    requires RepeatFree(bs1, |bs1|, kind) && RepeatFree(bs2, |bs2|, kind)
    requires forall b :: b in bs1 <==> b in bs2
    ensures UnionOfFirst(bs1, |bs1|, kind) == UnionOfFirst(bs2, |bs2|, kind)
  {
    var m1, m2 := UnionOfFirst(bs1, |bs1|, kind), UnionOfFirst(bs2, |bs2|, kind);
    UnionIsExact(bs1, |bs1|, kind);
    UnionIsExact(bs2, |bs2|, kind);
    UnionCovers(m1, bs1, m2, bs2, kind);
    UnionCovers(m2, bs2, m1, bs1, kind);
    SameMaps(m1, m2);
  }

  /** A value at two positions of a sequence occurs at least twice in it. */
  lemma TwiceCounted(s: seq<Bundle>, i: int, j: int)
    requires 0 <= i < j < |s| && s[i] == s[j]
    ensures multiset(s)[s[i]] >= 2
  {
    assert s == s[..j] + s[j..];
    assert s[i] in s[..j];
    assert s[j] in s[j..];
  }

  /** A value occurring at least twice sits at two positions. */
  lemma {:induction false} TwicePlaced(s: seq<Bundle>, x: Bundle) returns (i: int, j: int)
    requires multiset(s)[x] >= 2
    ensures 0 <= i < j < |s| && s[i] == x && s[j] == x
  {
    assert s == [s[0]] + s[1..];
    if s[0] == x {
      assert x in multiset(s[1..]);
      var j' :| 0 <= j' < |s[1..]| && s[1..][j'] == x;
      i, j := 0, j' + 1;
    } else {
      var i', j' := TwicePlaced(s[1..], x);
      i, j := i' + 1, j' + 1;
    }
  }

  /** A name declared by two bundles of one list is declared by two bundles
      of any reordering of it. */
  lemma RepeatSurvivesReorder(bs1: seq<Bundle>, bs2: seq<Bundle>, kind: NameKind)
    requires multiset(bs1) == multiset(bs2)
    requires RepeatedWithin(bs1, |bs1|, kind)
    ensures RepeatedWithin(bs2, |bs2|, kind)
  {
    var i, j, n :| 0 <= i < j < |bs1| && Declares(bs1[i], kind, n) && Declares(bs1[j], kind, n);
    var i2, j2;
    if bs1[i] == bs1[j] {
      TwiceCounted(bs1, i, j);
      i2, j2 := TwicePlaced(bs2, bs1[i]);
    } else {
      assert bs1[i] in multiset(bs2) && bs1[j] in multiset(bs2);
      var a :| 0 <= a < |bs2| && bs2[a] == bs1[i];
      var c :| 0 <= c < |bs2| && bs2[c] == bs1[j];
      if a < c { i2, j2 := a, c; } else { i2, j2 := c, a; }
    }
    assert Declares(bs2[i2], kind, n) && Declares(bs2[j2], kind, n);
  }

  /** Reordering the bundles does not change whether `entry` or `aliases`
      fails: only which repeat is reported first can change. */
  lemma PermutationKeepsRepeats(bs1: seq<Bundle>, bs2: seq<Bundle>, kind: NameKind)
    requires multiset(bs1) == multiset(bs2)
    ensures RepeatFree(bs1, |bs1|, kind) <==> RepeatFree(bs2, |bs2|, kind)
  {
    RepeatFreeIff(bs1, |bs1|, kind);
    RepeatFreeIff(bs2, |bs2|, kind);
    if RepeatedWithin(bs1, |bs1|, kind) {
      RepeatSurvivesReorder(bs1, bs2, kind);
    }
    if RepeatedWithin(bs2, |bs2|, kind) {
      RepeatSurvivesReorder(bs2, bs1, kind);
    }
  }
}

/**
 * The `allowed_copy_paths` and `copy` properties of a bundle project, with
 * `_get_dir_path`. Every copy instruction must have exactly the keys `from`
 * and `to`; both are joined onto the directory part of the config path, and
 * when allowed paths are configured, the directory part of each result must
 * lie, lexically, under one of them. Accepted instructions are returned as
 * they were declared.
 *
 * Relative allowed paths are joined onto the config FILE path, while copy
 * paths are joined onto its directory part; the two bases differ exactly
 * when the config file exists (`RelativeBasesDiffer`, `RelativeBasesAgree`).
 */
module Copying {
  import opened Paths
  import opened Bundles

  /** `_get_dir_path`: the parent of a path that is a file; any other path (a
      directory, or one that does not exist) is its own directory. `isFile`
      stands for `pathlib.Path.is_file`. */
  function DirPath(p: Path, isFile: Path -> bool): (r: Path)
    ensures IsRelativeTo(p, r)
    ensures isFile(p) && p.parts != [] ==> |r.parts| + 1 == |p.parts|
    ensures !isFile(p) ==> r == p
  {
    if isFile(p) then Parent(p) else p
  }

  /** One allowed copy path: an absolute one is kept, a relative one is
      joined onto the config file path. */
  function AllowedPath(configFile: Path, s: string): (r: Path)
    ensures Parse(s).absolute ==> r == Parse(s)
    ensures !Parse(s).absolute ==> IsRelativeTo(r, configFile) && r.parts[|configFile.parts|..] == Parse(s).parts
  {
    var a := Parse(s);
    if a.absolute then a else JoinPath(configFile, a)
  }

  /** The allowed copy paths of a project, in the order they are listed. */
  function AllowedPaths(p: Project): seq<Path> {
    var listed, configFile := Listed(p.allowedCopyPaths), Parse(ConfigPath(p));
    seq(|listed|, i requires 0 <= i < |listed| => AllowedPath(configFile, listed[i]))
  }

  /** `allowed_copy_paths`: the producer, if there is one, is called once,
      and each listed path becomes one allowed path, in order. */
  method AllowedCopyPaths(p: Project) returns (r: seq<Path>)
    ensures |r| == |Listed(p.allowedCopyPaths)|
    ensures forall i :: 0 <= i < |r| ==> r[i] == AllowedPath(Parse(ConfigPath(p)), Listed(p.allowedCopyPaths)[i])
    ensures r == AllowedPaths(p)
  {
    var listed := Listed(p.allowedCopyPaths);
    var configFile := Parse(ConfigPath(p));
    r := [];
    var i := 0;
    while i < |listed|
      invariant 0 <= i <= |listed|
      invariant |r| == i
      invariant forall i' :: 0 <= i' < i ==> r[i'] == AllowedPath(configFile, listed[i'])
    {
      var allowed := Parse(listed[i]);
      if !allowed.absolute {
        allowed := JoinPath(configFile, allowed);
      }
      r := r + [allowed];
      i := i + 1;
    }
  }

  /** The path copy paths are joined onto: `_get_dir_path(config_path)`, the
      config file's directory when the file exists and the config path itself
      when it does not. */
  function CopyBase(p: Project, isFile: Path -> bool): Path {
    DirPath(Parse(ConfigPath(p)), isFile)
  }

  /** The directory part of one side of an instruction, joined onto `base`. */
  function Resolved(base: Path, s: string, isFile: Path -> bool): Path {
    DirPath(JoinPath(base, Parse(s)), isFile)
  }

  /** The checks on one copy instruction: exactly the keys `from` and `to`,
      and, when allowed paths are configured, both resolved directories under
      one of them (not necessarily the same one). */
  function CheckCopy(c: CopyInstruction, base: Path, allowed: seq<Path>, isFile: Path -> bool): (r: Result<CopyInstruction>)
    ensures r.Ok? ==> r.value == c
    ensures c.Keys != {"from", "to"} ==> r == Err(InvalidCopyInstruction(c))
    ensures c.Keys == {"from", "to"} ==>
      (r.Ok? <==> allowed == [] || (UnderSome(Resolved(base, c["from"], isFile), allowed)
                                    && UnderSome(Resolved(base, c["to"], isFile), allowed)))
  {
    if c.Keys != {"from", "to"} then Err(InvalidCopyInstruction(c))
    else
      var fromDir := Resolved(base, c["from"], isFile);
      var toDir := Resolved(base, c["to"], isFile);
      if |allowed| > 0 && !(UnderSome(fromDir, allowed) && UnderSome(toDir, allowed)) then
        Err(CopyOutOfBounds(c, fromDir, toDir, allowed))
      else Ok(c)
  }

  predicate Passes(c: CopyInstruction, base: Path, allowed: seq<Path>, isFile: Path -> bool) {
    CheckCopy(c, base, allowed, isFile).Ok?
  }

  // ---- The two loops as folds ----

  /** The inner loop over the first `j` instructions of one bundle, appending
      to `acc` until one fails. */
  function CheckFirst(acc: seq<CopyInstruction>, cs: seq<CopyInstruction>, j: int,
                      base: Path, allowed: seq<Path>, isFile: Path -> bool): Result<seq<CopyInstruction>>
    requires 0 <= j <= |cs|
  {
    if j == 0 then Ok(acc)
    else
      match CheckFirst(acc, cs, j - 1, base, allowed, isFile)
      case Err(e) => Err(e)
      case Ok(out) =>
        match CheckCopy(cs[j - 1], base, allowed, isFile)
        case Err(e) => Err(e)
        case Ok(_) => Ok(out + [cs[j - 1]])
  }

  /** The outer loop over the first `k` bundles. */
  function CopiedFirst(bs: seq<Bundle>, k: int, base: Path, allowed: seq<Path>, isFile: Path -> bool): Result<seq<CopyInstruction>>
    requires 0 <= k <= |bs|
  {
    if k == 0 then Ok([])
    else
      match CopiedFirst(bs, k - 1, base, allowed, isFile)
      case Err(e) => Err(e)
      case Ok(acc) => CheckFirst(acc, bs[k - 1].copy, |bs[k - 1].copy|, base, allowed, isFile)
  }

  /** The instructions of the first `k` bundles, in bundle order and then
      declaration order. */
  function AllCopies(bs: seq<Bundle>, k: int): seq<CopyInstruction>
    requires 0 <= k <= |bs|
  {
    if k == 0 then [] else AllCopies(bs, k - 1) + bs[k - 1].copy
  }

  /** Every instruction of the first `k` bundles passes the checks. */
  predicate AllPass(bs: seq<Bundle>, k: int, base: Path, allowed: seq<Path>, isFile: Path -> bool)
    requires 0 <= k <= |bs|
  {
    k == 0 ||
    (var cs := bs[k - 1].copy;
     AllPass(bs, k - 1, base, allowed, isFile) && forall j :: 0 <= j < |cs| ==> Passes(cs[j], base, allowed, isFile))
  }

  /** Instruction `j` of bundle `k` is the first that fails the checks. */
  predicate FirstFailingCopy(bs: seq<Bundle>, k: int, j: int, base: Path, allowed: seq<Path>, isFile: Path -> bool) {
    && 0 <= k < |bs| && 0 <= j < |bs[k].copy|
    && AllPass(bs, k, base, allowed, isFile)
    && (forall j' :: 0 <= j' < j ==> Passes(bs[k].copy[j'], base, allowed, isFile))
    && !Passes(bs[k].copy[j], base, allowed, isFile)
  }

  // ---- The loops ----

  /** The loops of `copy`: each instruction of each bundle is checked and
      appended, until one fails. */
  method CollectCopies(bs: seq<Bundle>, base: Path, allowed: seq<Path>, isFile: Path -> bool)
    returns (r: Result<seq<CopyInstruction>>)
    ensures r == CopiedFirst(bs, |bs|, base, allowed, isFile)
  {
    var out: seq<CopyInstruction> := [];
    var k := 0;
    while k < |bs|
      invariant 0 <= k <= |bs|
      invariant CopiedFirst(bs, k, base, allowed, isFile) == Ok(out)
    {
      var copies := bs[k].copy;
      ghost var before := out;
      var j := 0;
      while j < |copies|
        invariant 0 <= j <= |copies|
        invariant CopiedFirst(bs, k, base, allowed, isFile) == Ok(before)
        invariant CheckFirst(before, copies, j, base, allowed, isFile) == Ok(out)
      {
        var c := copies[j];
        var checked := CheckCopy(c, base, allowed, isFile);
        if checked.Err? {
          CopyFailed(bs, k, j, base, allowed, isFile, before, out);
          r := Err(checked.error);
          return;
        }
        CheckNext(before, copies, j, base, allowed, isFile, out);
        out := out + [c];
        j := j + 1;
      }
      CopiedNext(bs, k, base, allowed, isFile, before, out);
      k := k + 1;
    }
    r := Ok(out);
  }

  /** The inner loop's step over an instruction that passes. */
  lemma CheckNext(acc: seq<CopyInstruction>, cs: seq<CopyInstruction>, j: int,
                  base: Path, allowed: seq<Path>, isFile: Path -> bool, out: seq<CopyInstruction>)
    requires 0 <= j < |cs| && CheckFirst(acc, cs, j, base, allowed, isFile) == Ok(out)
    requires CheckCopy(cs[j], base, allowed, isFile).Ok?
    ensures CheckFirst(acc, cs, j + 1, base, allowed, isFile) == Ok(out + [cs[j]])
  {
  }

  /** The outer loop's step over a bundle whose instructions all pass. */
  lemma CopiedNext(bs: seq<Bundle>, k: int, base: Path, allowed: seq<Path>, isFile: Path -> bool,
                   before: seq<CopyInstruction>, out: seq<CopyInstruction>)
    requires 0 <= k < |bs| && CopiedFirst(bs, k, base, allowed, isFile) == Ok(before)
    requires CheckFirst(before, bs[k].copy, |bs[k].copy|, base, allowed, isFile) == Ok(out)
    ensures CopiedFirst(bs, k + 1, base, allowed, isFile) == Ok(out)
  {
  }

  /** The loop's exit at a failing instruction: its error is what the folds
      return. */
  lemma CopyFailed(bs: seq<Bundle>, k: int, j: int, base: Path, allowed: seq<Path>, isFile: Path -> bool,
                   before: seq<CopyInstruction>, out: seq<CopyInstruction>)
    requires 0 <= k < |bs| && 0 <= j < |bs[k].copy|
    requires CopiedFirst(bs, k, base, allowed, isFile) == Ok(before)
    requires CheckFirst(before, bs[k].copy, j, base, allowed, isFile) == Ok(out)
    requires CheckCopy(bs[k].copy[j], base, allowed, isFile).Err?
    ensures CopiedFirst(bs, |bs|, base, allowed, isFile) == Err(CheckCopy(bs[k].copy[j], base, allowed, isFile).error)
  {
    var e := CheckCopy(bs[k].copy[j], base, allowed, isFile).error;
    assert CheckFirst(before, bs[k].copy, j + 1, base, allowed, isFile) == Err(e);
    CheckErrPersists(before, bs[k].copy, j + 1, |bs[k].copy|, base, allowed, isFile);
    assert CopiedFirst(bs, k + 1, base, allowed, isFile) == Err(e);
    CopiedErrPersists(bs, k + 1, |bs|, base, allowed, isFile);
  }

  /** `copy`: the instructions of all bundles, unchanged and in order, when
      every one passes the checks; otherwise the error of the first that
      does not. */
  method Copy(p: Project, isFile: Path -> bool) returns (r: Result<seq<CopyInstruction>>)
    ensures var base, allowed := CopyBase(p, isFile), AllowedPaths(p);
      && (r.Ok? <==> AllPass(p.bundles, |p.bundles|, base, allowed, isFile))
      && (r.Ok? ==> r.value == AllCopies(p.bundles, |p.bundles|))
      && (r.Err? ==> exists k, j :: FirstFailingCopy(p.bundles, k, j, base, allowed, isFile)
                                  && r.error == CheckCopy(p.bundles[k].copy[j], base, allowed, isFile).error)
  {
    var base := DirPath(Parse(ConfigPath(p)), isFile);
    var allowed := AllowedCopyPaths(p);
    r := CollectCopies(p.bundles, base, allowed, isFile);
    CopiedMeaning(p.bundles, base, allowed, isFile);
  }

  // ---- What the folds compute ----

  lemma {:induction false} CheckErrPersists(acc: seq<CopyInstruction>, cs: seq<CopyInstruction>, j: int, j2: int,
                                            base: Path, allowed: seq<Path>, isFile: Path -> bool)
    requires 0 <= j <= j2 <= |cs|
    requires CheckFirst(acc, cs, j, base, allowed, isFile).Err?
    ensures CheckFirst(acc, cs, j2, base, allowed, isFile) == CheckFirst(acc, cs, j, base, allowed, isFile)
    decreases j2
  {
    if j < j2 {
      CheckErrPersists(acc, cs, j, j2 - 1, base, allowed, isFile);
    }
  }

  lemma {:induction false} CopiedErrPersists(bs: seq<Bundle>, k: int, k2: int, base: Path, allowed: seq<Path>, isFile: Path -> bool)
    requires 0 <= k <= k2 <= |bs|
    requires CopiedFirst(bs, k, base, allowed, isFile).Err?
    ensures CopiedFirst(bs, k2, base, allowed, isFile) == CopiedFirst(bs, k, base, allowed, isFile)
    decreases k2
  {
    if k < k2 {
      CopiedErrPersists(bs, k, k2 - 1, base, allowed, isFile);
    }
  }

  /** The inner loop succeeds exactly when each instruction it reads passes,
      and then it has appended them all, unchanged and in order. */
  lemma {:induction false} CheckFirstOk(acc: seq<CopyInstruction>, cs: seq<CopyInstruction>, j: int,
                                        base: Path, allowed: seq<Path>, isFile: Path -> bool)
    requires 0 <= j <= |cs|
    ensures CheckFirst(acc, cs, j, base, allowed, isFile).Ok? <==>
      forall j' :: 0 <= j' < j ==> Passes(cs[j'], base, allowed, isFile)
    ensures CheckFirst(acc, cs, j, base, allowed, isFile).Ok? ==>
      CheckFirst(acc, cs, j, base, allowed, isFile).value == acc + cs[..j]
  {
    if j > 0 {
      CheckFirstOk(acc, cs, j - 1, base, allowed, isFile);
      assert cs[..j] == cs[..j - 1] + [cs[j - 1]];
    }
  }

  /** The inner loop fails with the error of its first failing instruction. */
  lemma {:induction false} CheckFirstErr(acc: seq<CopyInstruction>, cs: seq<CopyInstruction>, j: int,
                                         base: Path, allowed: seq<Path>, isFile: Path -> bool) returns (i: int)
    requires 0 <= j <= |cs|
    requires CheckFirst(acc, cs, j, base, allowed, isFile).Err?
    ensures 0 <= i < j
    ensures forall j' :: 0 <= j' < i ==> Passes(cs[j'], base, allowed, isFile)
    ensures !Passes(cs[i], base, allowed, isFile)
    ensures CheckFirst(acc, cs, j, base, allowed, isFile).error == CheckCopy(cs[i], base, allowed, isFile).error
  {
    if CheckFirst(acc, cs, j - 1, base, allowed, isFile).Err? {
      i := CheckFirstErr(acc, cs, j - 1, base, allowed, isFile);
    } else {
      i := j - 1;
      CheckFirstOk(acc, cs, i, base, allowed, isFile);
    }
  }

  /** The loops succeed exactly when every instruction passes, returning all
      of them in bundle order and then declaration order. */
  lemma {:induction false} CopiedOk(bs: seq<Bundle>, k: int, base: Path, allowed: seq<Path>, isFile: Path -> bool)
    requires 0 <= k <= |bs|
    ensures CopiedFirst(bs, k, base, allowed, isFile).Ok? <==> AllPass(bs, k, base, allowed, isFile)
    ensures CopiedFirst(bs, k, base, allowed, isFile).Ok? ==>
      CopiedFirst(bs, k, base, allowed, isFile).value == AllCopies(bs, k)
  {
    if k > 0 {
      CopiedOk(bs, k - 1, base, allowed, isFile);
      if CopiedFirst(bs, k - 1, base, allowed, isFile).Ok? {
        var cs := bs[k - 1].copy;
        CheckFirstOk(AllCopies(bs, k - 1), cs, |cs|, base, allowed, isFile);
        assert cs[..|cs|] == cs;
      }
    }
  }

  /** When the loops fail at bundle `k`, they fail with the error of its
      first failing instruction. */
  lemma FailsAt(bs: seq<Bundle>, k: int, base: Path, allowed: seq<Path>, isFile: Path -> bool) returns (j: int)
    requires 0 <= k < |bs|
    requires CopiedFirst(bs, k, base, allowed, isFile).Ok? && CopiedFirst(bs, k + 1, base, allowed, isFile).Err?
    ensures FirstFailingCopy(bs, k, j, base, allowed, isFile)
    ensures CopiedFirst(bs, k + 1, base, allowed, isFile).error == CheckCopy(bs[k].copy[j], base, allowed, isFile).error
  {
    CopiedOk(bs, k, base, allowed, isFile);
    var acc := CopiedFirst(bs, k, base, allowed, isFile).value;
    j := CheckFirstErr(acc, bs[k].copy, |bs[k].copy|, base, allowed, isFile);
  }

  lemma {:induction false} CopiedErr(bs: seq<Bundle>, k: int, base: Path, allowed: seq<Path>, isFile: Path -> bool)
    requires 0 <= k <= |bs|
    requires CopiedFirst(bs, k, base, allowed, isFile).Err?
    ensures exists k', j ::
      (FirstFailingCopy(bs, k', j, base, allowed, isFile)
       && CopiedFirst(bs, k, base, allowed, isFile).error == CheckCopy(bs[k'].copy[j], base, allowed, isFile).error)
  {
    if CopiedFirst(bs, k - 1, base, allowed, isFile).Err? {
      CopiedErr(bs, k - 1, base, allowed, isFile);
    } else {
      var j := FailsAt(bs, k - 1, base, allowed, isFile);
    }
  }

  /** What the loops of `copy` return, for the whole bundle list. */
  lemma CopiedMeaning(bs: seq<Bundle>, base: Path, allowed: seq<Path>, isFile: Path -> bool)
    ensures var r := CopiedFirst(bs, |bs|, base, allowed, isFile);
      && (r.Ok? <==> AllPass(bs, |bs|, base, allowed, isFile))
      && (r.Ok? ==> r.value == AllCopies(bs, |bs|))
      && (r.Err? ==> exists k, j :: FirstFailingCopy(bs, k, j, base, allowed, isFile)
                                  && r.error == CheckCopy(bs[k].copy[j], base, allowed, isFile).error)
  {
    CopiedOk(bs, |bs|, base, allowed, isFile);
    if CopiedFirst(bs, |bs|, base, allowed, isFile).Err? {
      CopiedErr(bs, |bs|, base, allowed, isFile);
    }
  }

  // ---- Properties of the checks ----

  /** With no allowed paths configured, an instruction passes exactly when it
      has the keys `from` and `to` and no others. */
  lemma {:induction false} AllPassWithoutAllowed(bs: seq<Bundle>, k: int, base: Path, isFile: Path -> bool)
    requires 0 <= k <= |bs|
    ensures AllPass(bs, k, base, [], isFile) <==>
      forall i, j :: 0 <= i < k && 0 <= j < |bs[i].copy| ==> bs[i].copy[j].Keys == {"from", "to"}
  {
    if k > 0 {
      AllPassWithoutAllowed(bs, k - 1, base, isFile);
      var cs := bs[k - 1].copy;
      if AllPass(bs, k, base, [], isFile) {
        forall i, j | 0 <= i < k && 0 <= j < |bs[i].copy| ensures bs[i].copy[j].Keys == {"from", "to"} {
          if i == k - 1 {
            assert Passes(cs[j], base, [], isFile);
          }
        }
      }
    }
  }

  /** An instruction with a key besides `from` and `to` is refused whatever
      the paths, as is one missing either key. */
  lemma KeySetChecked(c: CopyInstruction, base: Path, allowed: seq<Path>, isFile: Path -> bool)
    requires "from" !in c || "to" !in c || exists key :: key in c && key != "from" && key != "to"
    ensures CheckCopy(c, base, allowed, isFile) == Err(InvalidCopyInstruction(c))
  {
    if "from" !in c {
      assert "from" in {"from", "to"};
    } else if "to" !in c {
      assert "to" in {"from", "to"};
    } else {
      var key :| key in c && key != "from" && key != "to";
      assert key !in {"from", "to"};
    }
  }

  /** A relative path keeps the directory part of its join onto `base` under
      `base`, whatever `..` parts it holds: pathlib compares parts, it does
      not resolve them. */
  lemma ResolvedStaysUnder(base: Path, s: string, isFile: Path -> bool)
    requires !Parse(s).absolute
    requires Parse(s).parts != [] || !isFile(base)
    ensures IsRelativeTo(Resolved(base, s, isFile), base)
  {
    var joined := JoinPath(base, Parse(s));
    if Parse(s).parts == [] {
      assert joined.parts == base.parts + [] == base.parts;
    } else if isFile(joined) {
      assert Parent(joined).parts == base.parts + Parse(s).parts[..|Parse(s).parts| - 1];
    }
  }

  /** `../../etc` parses to the relative parts `..`, `..`, `etc`. */
  lemma ClimbingPathParts()
    ensures Parse("../../etc") == Path(false, ["..", "..", "etc"])
  {
    assert "../../etc" == ".." + "/" + ".." + "/" + "etc";
    assert IsPart("..") && IsPart("etc");
    ThreeParts("..", "..", "etc");
  }

  /** So an instruction whose relative paths climb out of an allowed base
      with `..` still passes: `{"from": "../../etc", "to": "../../etc"}` under
      a base that is itself the one allowed path (`/proj/static`, say). */
  lemma ParentPartsPass(base: Path, isFile: Path -> bool)
    ensures var c := map["from" := "../../etc", "to" := "../../etc"];
      Passes(c, base, [base], isFile)
  {
    var c := map["from" := "../../etc", "to" := "../../etc"];
    ClimbingPathParts();
    ResolvedStaysUnder(base, "../../etc", isFile);
    assert c.Keys == {"from", "to"};
    assert c["from"] == "../../etc" && c["to"] == "../../etc";
    assert IsRelativeTo(Resolved(base, "../../etc", isFile), [base][0]);
  }

  /** Whether such an instruction passes depends on the base: from the base
      `/proj`, the same instruction resolves to `/proj/../../etc` (or its
      parent), which does not start with the parts of `/proj/static`. */
  lemma ParentPartsRefusedFromAbove(isFile: Path -> bool)
    ensures var c := map["from" := "../../etc", "to" := "../../etc"];
      !Passes(c, Path(true, ["proj"]), [Path(true, ["proj", "static"])], isFile)
  {
    var c := map["from" := "../../etc", "to" := "../../etc"];
    var base, allowed := Path(true, ["proj"]), [Path(true, ["proj", "static"])];
    ClimbingPathParts();
    var joined := JoinPath(base, Parse("../../etc"));
    assert joined.parts == ["proj", "..", "..", "etc"];
    var fromDir := Resolved(base, "../../etc", isFile);
    assert fromDir.parts[1] == "..";
    assert !IsRelativeTo(fromDir, allowed[0]);
    assert c.Keys == {"from", "to"};
    assert c["from"] == "../../etc";
  }

  /** When the config file exists, the copy base is its directory, which no
      relative allowed path contains: those lie under the file itself. */
  lemma RelativeBasesDiffer(configFile: Path, s: string, isFile: Path -> bool)
    requires isFile(configFile) && configFile.parts != []
    requires !Parse(s).absolute
    ensures !IsRelativeTo(DirPath(configFile, isFile), AllowedPath(configFile, s))
  {
  }

  /** When the config path is not a file, both bases are the config path, and
      a relative allowed path is exactly where the same relative copy path
      points. */
  lemma RelativeBasesAgree(configFile: Path, s: string, isFile: Path -> bool)
    requires !isFile(configFile)
    requires !Parse(s).absolute
    ensures JoinPath(DirPath(configFile, isFile), Parse(s)) == AllowedPath(configFile, s)
  {
  }

  /** So whether the config file exists can decide `copy`. With the one
      relative allowed path `s` and the instruction `{"from": s, "to": s}`:
      before the file is written the copy base is the config path itself and
      the instruction resolves exactly to the allowed path; once the file
      exists the base is its directory, and the instruction resolves to a
      path with fewer parts than the allowed one. */
  lemma ConfigFileDecidesCopy(p: Project, s: string)
    requires Listed(p.allowedCopyPaths) == [s]
    requires Parse(ConfigPath(p)).parts != []
    requires !Parse(s).absolute && Parse(s).parts != []
    ensures var c := map["from" := s, "to" := s];
      var configFile := Parse(ConfigPath(p));
      var absent, present := (q: Path) => false, (q: Path) => q == configFile;
      && Passes(c, CopyBase(p, absent), AllowedPaths(p), absent)
      && !Passes(c, CopyBase(p, present), AllowedPaths(p), present)
  {
    var c := map["from" := s, "to" := s];
    var configFile := Parse(ConfigPath(p));
    var absent, present := (q: Path) => false, (q: Path) => q == configFile;
    var allowed := AllowedPaths(p);
    assert allowed == [AllowedPath(configFile, s)];
    assert c.Keys == {"from", "to"};
    assert c["from"] == s && c["to"] == s;
    // Config file absent: the base is the config path, and `s` resolves to the allowed path.
    RelativeBasesAgree(configFile, s, absent);
    assert IsRelativeTo(Resolved(CopyBase(p, absent), s, absent), allowed[0]);
    // Config file present: the resolved directory is shorter than the allowed path.
    var dirIfFile := Resolved(CopyBase(p, present), s, present);
    assert |dirIfFile.parts| < |allowed[0].parts|;
    assert !IsRelativeTo(dirIfFile, allowed[0]);
  }
}

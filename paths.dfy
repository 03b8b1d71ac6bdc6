/**
 * Pure path arithmetic as the bundle project uses it: `os.path.join` on
 * strings, and the lexical part of `pathlib` (parsing, `joinpath`, `parent`,
 * `is_relative_to`). Nothing here touches a file system; whether a path is a
 * file is a predicate supplied by the caller.
 */
module Paths {

  /** A POSIX path as pathlib splits it: whether it has the root `/`, and its
      remaining parts. `..` is an ordinary part: pathlib never collapses it. */
  datatype Path = Path(absolute: bool, parts: seq<string>)

  /** A part as pathlib keeps it: not empty, not `.`, and free of `/`. */
  predicate IsPart(s: string) {
    s != "" && s != "." && '/' !in s
  }

  /** The pieces of `s` between `/` characters, empty pieces included. */
  function Chunks(s: string): (r: seq<string>)
    ensures |r| >= 1
    ensures forall c :: c in r ==> '/' !in c
    decreases |s|
  {
    if s == [] then [""]
    else
      var rest := Chunks(s[1..]);
      if s[0] == '/' then [""] + rest
      else [[s[0]] + rest[0]] + rest[1..]
  }

  /** Drops the empty pieces and the `.` pieces, as pathlib's parser does. */
  function Keep(cs: seq<string>): (r: seq<string>)
    requires forall c :: c in cs ==> '/' !in c
    ensures forall c :: c in r ==> IsPart(c)
    ensures forall c :: c in r ==> c in cs
  {
    if cs == [] then []
    else if cs[0] == "" || cs[0] == "." then Keep(cs[1..])
    else [cs[0]] + Keep(cs[1..])
  }

  /** `pathlib.PurePosixPath(s)`. */
  function Parse(s: string): (p: Path)
    ensures p.absolute <==> |s| > 0 && s[0] == '/'
    ensures forall c :: c in p.parts ==> IsPart(c)
  {
    Path(|s| > 0 && s[0] == '/', Keep(Chunks(s)))
  }

  /** `posixpath.join(a, b)` with two arguments. */
  function OsJoin(a: string, b: string): (r: string)
    ensures |b| > 0 && b[0] == '/' ==> r == b
    ensures !(|b| > 0 && b[0] == '/') ==> a <= r && |b| <= |r| && r[|r| - |b|..] == b
  {
    if |b| > 0 && b[0] == '/' then b
    else if a == "" || a[|a| - 1] == '/' then a + b
    else a + "/" + b
  }

  /** `base.joinpath(p)`: an absolute `p` replaces the base. */
  function JoinPath(base: Path, p: Path): (r: Path)
    ensures p.absolute ==> r == p
    ensures !p.absolute ==> IsRelativeTo(r, base) && r.parts[|base.parts|..] == p.parts
  {
    if p.absolute then p else Path(base.absolute, base.parts + p.parts)
  }

  /** `p.parent`: the last part dropped; the root and `.` are their own parent. */
  function Parent(p: Path): (r: Path)
    ensures IsRelativeTo(p, r)
    ensures p.parts != [] ==> |r.parts| + 1 == |p.parts|
    ensures p.parts == [] ==> r == p
  {
    if p.parts == [] then p else Path(p.absolute, p.parts[..|p.parts| - 1])
  }

  /** `p.is_relative_to(root)`: `root` is `p` itself or one of its lexical
      ancestors. */
  predicate IsRelativeTo(p: Path, root: Path) {
    p.absolute == root.absolute && root.parts <= p.parts
  }

  /** `any(p.is_relative_to(a) for a in roots)`. */
  predicate UnderSome(p: Path, roots: seq<Path>) {
    exists i :: 0 <= i < |roots| && IsRelativeTo(p, roots[i])
  }

  lemma {:induction false} ChunksSplit(a: string, b: string)
    ensures Chunks(a + "/" + b) == Chunks(a) + Chunks(b)
    decreases |a|
  {
    if a == [] {
      assert a + "/" + b == "/" + b;
      assert ("/" + b)[1..] == b;
    } else {
      assert (a + "/" + b)[1..] == a[1..] + "/" + b;
      ChunksSplit(a[1..], b);
    }
  }

  lemma {:induction false} KeepAppend(x: seq<string>, y: seq<string>)
    requires forall c :: c in x ==> '/' !in c
    requires forall c :: c in y ==> '/' !in c
    ensures Keep(x + y) == Keep(x) + Keep(y)
  {
    if x == [] {
      assert x + y == y;
    } else {
      assert (x + y)[1..] == x[1..] + y;
      KeepAppend(x[1..], y);
    }
  }

  /** Splitting at a `/` splits the parts: what `os.path.join` builds, pathlib
      parses as the `joinpath` of the two pieces. */
  lemma SegmentsSplit(a: string, b: string)
    ensures Keep(Chunks(a + "/" + b)) == Keep(Chunks(a)) + Keep(Chunks(b))
  {
    ChunksSplit(a, b);
    KeepAppend(Chunks(a), Chunks(b));
  }

  /** A string without `/` is one chunk. */
  lemma {:induction false} SinglePart(s: string)
    requires '/' !in s
    ensures Chunks(s) == [s]
    decreases |s|
  {
    if s != [] {
      SinglePart(s[1..]);
      assert [s[0]] + s[1..] == s;
    }
  }

  /** Three parts joined by `/` parse back to those parts, relative. */
  lemma ThreeParts(a: string, b: string, c: string)
    requires IsPart(a) && IsPart(b) && IsPart(c)
    ensures Parse(a + "/" + b + "/" + c) == Path(false, [a, b, c])
  {
    SinglePart(a);
    SinglePart(b);
    SinglePart(c);
    assert a + "/" + b + "/" + c == a + "/" + (b + "/" + c);
    SegmentsSplit(a, b + "/" + c);
    SegmentsSplit(b, c);
    assert (a + "/" + b + "/" + c)[0] == a[0];
  }

  /** `pathlib.Path(os.path.join(a, b)) == pathlib.Path(a).joinpath(b)`. */
  lemma ParseOsJoin(a: string, b: string)
    ensures Parse(OsJoin(a, b)) == JoinPath(Parse(a), Parse(b))
  {
    if |b| > 0 && b[0] == '/' {
    } else if a == "" {
      assert a + b == b;
      assert Keep(Chunks(a)) == [];
    } else if a[|a| - 1] == '/' {
      var a' := a[..|a| - 1];
      assert a == a' + "/" + "";
      assert a + b == a' + "/" + b;
      SegmentsSplit(a', b);
      SegmentsSplit(a', "");
      assert Keep(Chunks("")) == [];
      assert (a + b)[0] == a[0];
    } else {
      SegmentsSplit(a, b);
      assert (a + "/" + b)[0] == a[0];
    }
  }
}

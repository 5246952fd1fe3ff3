/**
 * The filesystem dskstore runs against: a tree of regular files and
 * directories keyed by path, and the `os` and `lockedfile` calls the store
 * makes on it (`Stat`, `MkdirAll`, `RemoveAll`, `lockedfile.Write`,
 * `lockedfile.Read`), each with the POSIX outcome it has on such a tree.
 */
module FileSystem {
  import opened Wrappers
  import opened Formats
  import opened PathNames

  datatype Entry = Regular(data: seq<Byte>) | Directory

  /** The `syscall.Errno` values the modelled calls can fail with. */
  datatype Errno = ENOENT | ENOTDIR | EISDIR

  datatype Op = OpStat | OpMkdir | OpOpen | OpRead | OpUnlinkat

  /** An `*fs.PathError`: the call, the path and the cause. */
  datatype IoError = PathError(op: Op, path: Path, errno: Errno)

  /** Every entry other than the root `[]`, which always exists as a directory. */
  type Tree = map<Path, Entry>

  /** A tree: every proper ancestor of an entry is a directory. */
  ghost predicate Wf(t: Tree)
  {
    && [] !in t
    && forall p, k | p in t && 0 < k < |p| :: p[..k] in t && t[p[..k]] == Directory
  }

  predicate RegularAt(t: Tree, p: Path)
  {
    p in t && t[p].Regular?
  }

  /** One of the ancestors `p[..1]`, ..., `p[..n - 1]` of `p` is a regular file. */
  predicate RegularAbove(t: Tree, p: Path, n: nat)
    requires n <= |p| + 1
  {
    exists k | 1 <= k < n :: RegularAt(t, p[..k])
  }

  /** Path resolution, as `stat(2)` performs it. */
  function Lookup(t: Tree, p: Path): (r: Result<Entry, Errno>)
    ensures r.Err? ==> p !in t && p != []
    ensures r.Ok? && p != [] ==> p in t && r.value == t[p]
  {
    if p == [] then Ok(Directory)
    else if p in t then Ok(t[p])
    else if RegularAbove(t, p, |p|) then Err(ENOTDIR)
    else Err(ENOENT)
  }

  /** The non-root ancestors of `p`, `p` included. */
  function Ancestry(p: Path): (a: set<Path>)
    ensures forall q | q in a :: q != [] && IsPrefix(q, p)
  {
    set k | 1 <= k <= |p| :: p[..k]
  }

  /** `t` with every path in `s` made a directory. */
  function AddDirs(t: Tree, s: set<Path>): Tree
  {
    t + map q | q in s :: Directory
  }

  /**
   * The regular file `os.MkdirAll` stops at: it walks up from `p` until its
   * `Stat` finds an entry, and reports that entry when it is not a directory.
   */
  function Blocker(t: Tree, p: Path): (b: Path)
    requires RegularAbove(t, p, |p| + 1)
    ensures b != [] && IsPrefix(b, p) && RegularAt(t, b)
    decreases |p|
  {
    if RegularAt(t, p) then p
    else
      assert p[..|p|] == p;
      var k :| 1 <= k < |p| + 1 && RegularAt(t, p[..k]);
      assert k < |p| && p[..|p| - 1][..k] == p[..k];
      Blocker(t, p[..|p| - 1])
  }

  /** `os.MkdirAll`: fails, naming the regular file in the way, when `p` or one of its ancestors is one. */
  function MakeDirs(t: Tree, p: Path): Result<Tree, IoError>
  {
    if RegularAbove(t, p, |p| + 1) then Err(PathError(OpMkdir, Blocker(t, p), ENOTDIR))
    else Ok(AddDirs(t, Ancestry(p)))
  }

  /**
   * `lockedfile.Write`: open with create and truncate, then write everything.
   * The parent must resolve to a directory and the target must not be one.
   */
  function Write(t: Tree, p: Path, data: seq<Byte>): Result<Tree, IoError>
  {
    if p == [] then Err(PathError(OpOpen, p, EISDIR))
    else match Lookup(t, p[..|p| - 1])
      case Err(e) => Err(PathError(OpOpen, p, e))
      case Ok(Regular(_)) => Err(PathError(OpOpen, p, ENOTDIR))
      case Ok(Directory) =>
        if p in t && t[p] == Directory then Err(PathError(OpOpen, p, EISDIR))
        else Ok(t[p := Regular(data)])
  }

  /** `lockedfile.Read`: open, then read everything; reading a directory fails. */
  function Read(t: Tree, p: Path): Result<seq<Byte>, IoError>
  {
    match Lookup(t, p)
    case Err(e) => Err(PathError(OpOpen, p, e))
    case Ok(Directory) => Err(PathError(OpRead, p, EISDIR))
    case Ok(Regular(data)) => Ok(data)
  }

  /** `p` and everything below it are gone. */
  function RemoveSubtree(t: Tree, p: Path): (r: Tree)
    ensures forall q | q in r :: q in t && r[q] == t[q] && !IsPrefix(p, q)
    ensures forall q | q in t && !IsPrefix(p, q) :: q in r
  {
    map q | q in t && !IsPrefix(p, q) :: t[q]
  }

  /**
   * `os.RemoveAll`. A missing path is no error. A regular file above `p`
   * makes `Remove(p)` fail with `ENOTDIR`, which is not "does not exist".
   * The fallback then opens the parent: opening the regular file itself
   * succeeds but `unlinkat` below it fails; opening anything below that file
   * fails. Either way `ENOTDIR` is returned and nothing is removed.
   */
  function RemoveTree(t: Tree, p: Path): Result<Tree, IoError>
  {
    if RegularAbove(t, p, |p|) then
      var parent := p[..|p| - 1];
      if RegularAt(t, parent) then Err(PathError(OpUnlinkat, p, ENOTDIR))
      else Err(PathError(OpOpen, parent, ENOTDIR))
    else Ok(RemoveSubtree(t, p))
  }

  /** On a tree, the regular file `MkdirAll` reports is the one regular ancestor of `p`. */
  lemma {:induction false} BlockerIsUnique(t: Tree, p: Path, k: nat)
    requires Wf(t)
    requires 1 <= k <= |p| && RegularAt(t, p[..k])
    ensures MakeDirs(t, p) == Err(PathError(OpMkdir, p[..k], ENOTDIR))
    decreases |p|
  {
    if |p| > k {
      var parent := p[..|p| - 1];
      assert parent[..k] == p[..k];
      BlockerIsUnique(t, parent, k);
    } else {
      assert p == p[..k];
    }
  }

  /** `MkdirAll` succeeds exactly when no regular file is in the way, and then leaves `p` a directory. */
  lemma MakeDirsResult(t: Tree, p: Path)
    requires p != []
    ensures MakeDirs(t, p).Ok? <==> forall k | 1 <= k <= |p| :: !RegularAt(t, p[..k])
    ensures MakeDirs(t, p).Ok? ==> Lookup(MakeDirs(t, p).value, p) == Ok(Directory)
  {
    if MakeDirs(t, p).Ok? {
      assert p == p[..|p|] && p in Ancestry(p);
    }
  }

  lemma {:induction false} WfAddAncestry(t: Tree, p: Path)
    requires Wf(t)
    requires !RegularAbove(t, p, |p| + 1)
    ensures Wf(AddDirs(t, Ancestry(p)))
  {
    var t' := AddDirs(t, Ancestry(p));
    forall q, k | q in t' && 0 < k < |q| ensures q[..k] in t' && t'[q[..k]] == Directory {
      if q in Ancestry(p) {
        assert q == p[..|q|];
        assert q[..k] == p[..k] && q[..k] in Ancestry(p);
      } else {
        assert q in t;
        assert q[..k] in t && t[q[..k]] == Directory;
      }
    }
  }

  lemma WfMakeDirs(t: Tree, p: Path)
    requires Wf(t)
    ensures MakeDirs(t, p).Ok? ==> Wf(MakeDirs(t, p).value)
  {
    if MakeDirs(t, p).Ok? {
      WfAddAncestry(t, p);
    }
  }

  lemma WfWrite(t: Tree, p: Path, data: seq<Byte>)
    requires Wf(t)
    ensures Write(t, p, data).Ok? ==> Wf(Write(t, p, data).value)
  {
    if Write(t, p, data).Ok? {
      var t' := t[p := Regular(data)];
      var parent := p[..|p| - 1];
      forall q, k | q in t' && 0 < k < |q| ensures q[..k] in t' && t'[q[..k]] == Directory {
        if q == p {
          assert parent in t && t[parent] == Directory;
          if k < |parent| {
            assert q[..k] == parent[..k];
          }
        } else {
          assert q in t;
        }
      }
    }
  }

  lemma WfRemoveSubtree(t: Tree, p: Path)
    requires Wf(t)
    ensures Wf(RemoveSubtree(t, p))
  {
    var t' := RemoveSubtree(t, p);
    forall q, k | q in t' && 0 < k < |q| ensures q[..k] in t' && t'[q[..k]] == Directory {
      assert q in t && !IsPrefix(p, q);
      assert q[..k] in t;
    }
  }

  /** The disk: one mutable tree, changed only through the calls below. */
  class Disk {
    var tree: Tree

    ghost predicate Valid()
      reads this
    {
      Wf(tree)
    }

    constructor (t: Tree)
      requires Wf(t)
      ensures Valid() && tree == t
    {
      tree := t;
    }

    /** `os.Stat`. */
    method Stat(p: Path) returns (r: Result<Entry, IoError>)
      ensures Lookup(tree, p).Ok? ==> r == Ok(Lookup(tree, p).value)
      ensures Lookup(tree, p).Err? ==> r == Err(PathError(OpStat, p, Lookup(tree, p).error))
    {
      match Lookup(tree, p)
      case Ok(e) => r := Ok(e);
      case Err(errno) => r := Err(PathError(OpStat, p, errno));
    }

    /** `os.MkdirAll`. */
    method MkdirAll(p: Path) returns (err: Option<IoError>)
      requires Valid()
      modifies this
      ensures Valid()
      ensures MakeDirs(old(tree), p).Ok? ==> err == None && tree == MakeDirs(old(tree), p).value
      ensures MakeDirs(old(tree), p).Err? ==> err == Some(MakeDirs(old(tree), p).error) && tree == old(tree)
    {
      WfMakeDirs(tree, p);
      match MakeDirs(tree, p)
      case Ok(t) => tree := t; err := None;
      case Err(e) => err := Some(e);
    }

    /** `lockedfile.Write`. */
    method WriteFile(p: Path, data: seq<Byte>) returns (err: Option<IoError>)
      requires Valid()
      modifies this
      ensures Valid()
      ensures Write(old(tree), p, data).Ok? ==> err == None && tree == Write(old(tree), p, data).value
      ensures Write(old(tree), p, data).Err? ==> err == Some(Write(old(tree), p, data).error) && tree == old(tree)
    {
      WfWrite(tree, p, data);
      match Write(tree, p, data)
      case Ok(t) => tree := t; err := None;
      case Err(e) => err := Some(e);
    }

    /** `lockedfile.Read`. */
    method ReadFile(p: Path) returns (r: Result<seq<Byte>, IoError>)
      ensures r == Read(tree, p)
    {
      r := Read(tree, p);
    }

    /** `os.RemoveAll`. */
    method RemoveAll(p: Path) returns (err: Option<IoError>)
      requires Valid()
      modifies this
      ensures Valid()
      ensures RemoveTree(old(tree), p).Ok? ==> err == None && tree == RemoveTree(old(tree), p).value
      ensures RemoveTree(old(tree), p).Err? ==> err == Some(RemoveTree(old(tree), p).error) && tree == old(tree)
    {
      WfRemoveSubtree(tree, p);
      match RemoveTree(tree, p)
      case Ok(t) => tree := t; err := None;
      case Err(e) => err := Some(e);
    }
  }
}

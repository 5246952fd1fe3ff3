/**
 * The store: a root path, a partition count and a level count, and the four
 * operations that place, find, read and wipe objects on the disk.
 */
module DskStores {
  import opened Wrappers
  import opened Formats
  import opened PathNames
  import opened Address
  import opened FileSystem

  datatype Error =
    | TooManyPartitions(prt: int)
    | TooManyLevels(lvl: int)
    | NotAFile(key: string)
    | NotFound(key: string)
    | Io(cause: IoError)

  /** What an operation that changes the disk reports, and the tree it leaves. */
  datatype Outcome = Outcome(err: Option<Error>, tree: Tree)

  /** The effect of `Store`: `MkdirAll(dir)`, then `lockedfile.Write(dir/name)`. */
  function PutObject(t: Tree, dir: Path, name: string, data: seq<Byte>): Outcome
  {
    match MakeDirs(t, dir)
    case Err(e) => Outcome(Some(Io(e)), t)
    case Ok(t1) =>
      match Write(t1, dir + [name], data)
      case Err(e) => Outcome(Some(Io(e)), t1)
      case Ok(t2) => Outcome(None, t2)
  }

  /** `MkdirAll` on each path in turn, stopping at the first failure. */
  function MkdirEach(t: Tree, dirs: seq<Path>): Outcome
    decreases |dirs|
  {
    if dirs == [] then Outcome(None, t)
    else match MakeDirs(t, dirs[0])
      case Err(e) => Outcome(Some(Io(e)), t)
      case Ok(t1) => MkdirEach(t1, dirs[1..])
  }

  lemma MkdirEachHead(t: Tree, dirs: seq<Path>)
    requires dirs != []
    ensures MakeDirs(t, dirs[0]).Err? ==> MkdirEach(t, dirs) == Outcome(Some(Io(MakeDirs(t, dirs[0]).error)), t)
    ensures MakeDirs(t, dirs[0]).Ok? ==> MkdirEach(t, dirs) == MkdirEach(MakeDirs(t, dirs[0]).value, dirs[1..])
  {
  }

  /** The directories `createPartitions` makes, in the order it makes them. */
  function PartitionDirs(root: Path, prt: nat): (dirs: seq<Path>)
    ensures |dirs| == prt
  {
    seq(prt, i requires 0 <= i < prt => root + [PartitionLabel(i, prt)])
  }

  /**
   * The effect of `Clean`: remove everything at and below the root, then
   * recreate the partitions; a failed removal is reported before any partition is made.
   */
  function Wipe(t: Tree, root: Path, prt: nat): Outcome
  {
    match RemoveTree(t, root)
    case Err(e) => Outcome(Some(Io(e)), t)
    case Ok(t0) => MkdirEach(t0, PartitionDirs(root, prt))
  }

  /** Every directory `MkdirEach` is asked for, with all its ancestors. */
  function DirsOf(dirs: seq<Path>): set<Path>
  {
    if dirs == [] then {} else Ancestry(dirs[0]) + DirsOf(dirs[1..])
  }

  // ---------------------------------------------------------------------
  // Store and Retrieve

  /**
   * `Store` succeeds exactly when no regular file stands where a directory
   * of the object's path must be, and no directory stands where its file goes.
   */
  lemma PutObjectSucceeds(t: Tree, dir: Path, name: string, data: seq<Byte>)
    requires Wf(t)
    ensures PutObject(t, dir, name, data).err == None <==>
      (forall k | 1 <= k <= |dir| :: !RegularAt(t, dir[..k])) &&
      !(dir + [name] in t && t[dir + [name]] == Directory)
  {
    var file := dir + [name];
    assert file[..|file| - 1] == dir;
    if MakeDirs(t, dir).Ok? {
      var t1 := MakeDirs(t, dir).value;
      if dir != [] {
        assert dir == dir[..|dir|] && dir in Ancestry(dir);
        assert Lookup(t1, dir) == Ok(Directory);
      }
      assert file !in Ancestry(dir);
    }
  }

  /** After a successful `Store`, the object's path holds exactly the stored bytes. */
  lemma PutThenRead(t: Tree, dir: Path, name: string, data: seq<Byte>)
    requires PutObject(t, dir, name, data).err == None
    ensures Lookup(PutObject(t, dir, name, data).tree, dir + [name]) == Ok(Regular(data))
    ensures Read(PutObject(t, dir, name, data).tree, dir + [name]) == Ok(data)
  {
  }

  /** A second `Store` to the same path succeeds too and replaces the first one's bytes. */
  lemma PutOverwrites(t: Tree, dir: Path, name: string, d1: seq<Byte>, d2: seq<Byte>)
    requires PutObject(t, dir, name, d1).err == None
    ensures var t1 := PutObject(t, dir, name, d1).tree;
      PutObject(t1, dir, name, d2) == Outcome(None, t1[dir + [name] := Regular(d2)])
  {
    var file := dir + [name];
    var t0 := MakeDirs(t, dir).value;
    var t1 := PutObject(t, dir, name, d1).tree;
    assert t1 == t0[file := Regular(d1)];
    assert file !in Ancestry(dir);
    assert !RegularAbove(t1, dir, |dir| + 1) by {
      forall k | 1 <= k < |dir| + 1 ensures !RegularAt(t1, dir[..k]) {
        assert dir[..k] in Ancestry(dir);
      }
    }
    assert AddDirs(t1, Ancestry(dir)) == t1;
    assert file[..|file| - 1] == dir;
    if dir != [] {
      assert dir == dir[..|dir|] && dir in Ancestry(dir);
    }
    assert t1[file := Regular(d2)] == t0[file := Regular(d2)];
  }

  /**
   * `Store` leaves every other path of the same depth as it was: what such a
   * path resolves to (and so what `Exists` and `Retrieve` report for it) is unchanged.
   */
  lemma PutKeepsOthers(t: Tree, dir: Path, name: string, data: seq<Byte>, other: Path)
    requires |other| == |dir| + 1 && other != dir + [name]
    ensures Lookup(PutObject(t, dir, name, data).tree, other) == Lookup(t, other)
  {
    var t' := PutObject(t, dir, name, data).tree;
    if MakeDirs(t, dir).Ok? {
      forall q | |q| <= |dir| ensures RegularAt(t', q) <==> RegularAt(t, q) {
        if q in Ancestry(dir) {
          var k :| 1 <= k <= |dir| && q == dir[..k];
          assert !RegularAt(t, dir[..k]);
        }
      }
      assert other !in Ancestry(dir);
      assert RegularAbove(t', other, |other|) <==> RegularAbove(t, other, |other|) by {
        forall k | 1 <= k < |other| ensures RegularAt(t', other[..k]) <==> RegularAt(t, other[..k]) { }
      }
    }
  }

  // ---------------------------------------------------------------------
  // createPartitions and Clean

  lemma AddDirsTwice(t: Tree, a: set<Path>, b: set<Path>)
    ensures AddDirs(AddDirs(t, a), b) == AddDirs(t, a + b)
  {
  }

  /** `MkdirEach` with no regular file in the way makes every directory asked for and nothing else. */
  lemma {:induction false} MkdirEachAllDirs(t: Tree, dirs: seq<Path>)
    requires forall i, k | 0 <= i < |dirs| && 1 <= k <= |dirs[i]| :: !RegularAt(t, dirs[i][..k])
    ensures MkdirEach(t, dirs) == Outcome(None, AddDirs(t, DirsOf(dirs)))
    decreases |dirs|
  {
    if dirs != [] {
      var a := Ancestry(dirs[0]);
      var t1 := AddDirs(t, a);
      assert !RegularAbove(t, dirs[0], |dirs[0]| + 1) by {
        forall k | 1 <= k < |dirs[0]| + 1 ensures !RegularAt(t, dirs[0][..k]) { }
      }
      assert MakeDirs(t, dirs[0]) == Ok(t1);
      var rest := dirs[1..];
      forall i, k | 0 <= i < |rest| && 1 <= k <= |rest[i]| ensures !RegularAt(t1, rest[i][..k]) {
        assert rest[i] == dirs[i + 1];
      }
      MkdirEachAllDirs(t1, rest);
      AddDirsTwice(t, a, DirsOf(rest));
    }
  }

  /** `MkdirEach` never turns a directory into anything else, whether or not it fails. */
  lemma {:induction false} MkdirEachKeepsDirs(t: Tree, dirs: seq<Path>, q: Path)
    requires q in t && t[q] == Directory
    ensures q in MkdirEach(t, dirs).tree && MkdirEach(t, dirs).tree[q] == Directory
    decreases |dirs|
  {
    if dirs != [] && MakeDirs(t, dirs[0]).Ok? {
      MkdirEachKeepsDirs(MakeDirs(t, dirs[0]).value, dirs[1..], q);
    }
  }

  /** After a successful `MkdirEach`, every directory asked for exists. */
  lemma {:induction false} MkdirEachMakesAll(t: Tree, dirs: seq<Path>)
    requires forall i | 0 <= i < |dirs| :: dirs[i] != []
    requires MkdirEach(t, dirs).err == None
    ensures forall i | 0 <= i < |dirs| :: Lookup(MkdirEach(t, dirs).tree, dirs[i]) == Ok(Directory)
    decreases |dirs|
  {
    if dirs != [] {
      var t1 := MakeDirs(t, dirs[0]).value;
      MakeDirsResult(t, dirs[0]);
      MkdirEachMakesAll(t1, dirs[1..]);
      MkdirEachKeepsDirs(t1, dirs[1..], dirs[0]);
      forall i | 1 <= i < |dirs| ensures dirs[i] == dirs[1..][i - 1] { }
    }
  }

  lemma AncestryOfChild(root: Path, c: Path)
    requires |c| == |root| + 1 && c[..|root|] == root
    ensures Ancestry(c) == Ancestry(root) + {c}
  {
    forall q | q in Ancestry(c) ensures q in Ancestry(root) + {c} {
      var k :| 1 <= k <= |c| && q == c[..k];
      if k <= |root| {
        assert q == root[..k];
      } else {
        assert q == c[..|c|];
      }
    }
    forall q | q in Ancestry(root) ensures q in Ancestry(c) {
      var k :| 1 <= k <= |root| && q == root[..k];
      assert q == c[..k];
    }
    assert c == c[..|c|];
  }

  /** The partitions and the root's ancestry are all the directories `createPartitions` asks for. */
  lemma {:induction false} DirsOfChildren(root: Path, dirs: seq<Path>)
    requires forall i | 0 <= i < |dirs| :: |dirs[i]| == |root| + 1 && dirs[i][..|root|] == root
    ensures forall q :: q in DirsOf(dirs) <==> (dirs != [] && q in Ancestry(root)) || q in dirs
  {
    if dirs != [] {
      AncestryOfChild(root, dirs[0]);
      DirsOfChildren(root, dirs[1..]);
      forall q ensures q in dirs <==> q == dirs[0] || q in dirs[1..] {
        if q in dirs {
          var i :| 0 <= i < |dirs| && dirs[i] == q;
          if i > 0 {
            assert dirs[1..][i - 1] == q;
          }
        }
      }
    }
  }

  /** No proper ancestor of the root is a regular file. */
  predicate RootReachable(t: Tree, root: Path)
  {
    forall k | 1 <= k < |root| :: !RegularAt(t, root[..k])
  }

  /** With the root reachable, a wipe succeeds and adds exactly the partitions and their ancestors. */
  lemma WipeSucceeds(t: Tree, root: Path, prt: nat)
    requires RootReachable(t, root)
    ensures Wipe(t, root, prt) == Outcome(None, AddDirs(RemoveSubtree(t, root), DirsOf(PartitionDirs(root, prt))))
  {
    var t0 := RemoveSubtree(t, root);
    var dirs := PartitionDirs(root, prt);
    forall i, k | 0 <= i < prt && 1 <= k <= |dirs[i]| ensures !RegularAt(t0, dirs[i][..k]) {
      if k < |root| {
        assert dirs[i][..k] == root[..k];
      } else {
        assert IsPrefix(root, dirs[i][..k]);
      }
    }
    MkdirEachAllDirs(t0, dirs);
  }

  /**
   * A regular file above the root makes the removal fail with `ENOTDIR`:
   * the wipe reports it, leaves the disk as it was and makes no partition.
   */
  lemma WipeFails(t: Tree, root: Path, prt: nat)
    requires !RootReachable(t, root)
    ensures Wipe(t, root, prt).tree == t
    ensures Wipe(t, root, prt).err.Some? && Wipe(t, root, prt).err.value.Io?
    ensures Wipe(t, root, prt).err.value.cause.errno == ENOTDIR
  {
    var k :| 1 <= k < |root| && RegularAt(t, root[..k]);
    assert RegularAbove(t, root, |root|);
  }

  /**
   * A wipe fails exactly when a proper ancestor of the root is a regular file;
   * otherwise it leaves, at and below the root, only the root and the
   * partition directories, and changes nothing elsewhere except to make the
   * root's ancestors directories.
   */
  lemma WipeResult(t: Tree, root: Path, prt: nat)
    requires root != [] && prt >= 1
    ensures Wipe(t, root, prt).err == None <==> RootReachable(t, root)
    ensures Wipe(t, root, prt).err == None ==>
      var t' := Wipe(t, root, prt).tree;
      && (forall q | IsPrefix(root, q) :: q in t' <==> q == root || q in PartitionDirs(root, prt))
      && (forall q | q in t' && (IsPrefix(root, q) || q in Ancestry(root)) :: t'[q] == Directory)
      && (forall q | !IsPrefix(root, q) && q !in Ancestry(root) ::
            (q in t' <==> q in t) && (q in t ==> t'[q] == t[q]))
  {
    if RootReachable(t, root) {
      var dirs := PartitionDirs(root, prt);
      forall i | 0 <= i < prt ensures |dirs[i]| == |root| + 1 && dirs[i][..|root|] == root { }
      WipeSucceeds(t, root, prt);
      DirsOfChildren(root, dirs);
    } else {
      WipeFails(t, root, prt);
    }
  }

  /** A wipe with the root reachable leaves nothing below the partitions: every object path is missing. */
  lemma WipeLeavesNoObjects(t: Tree, root: Path, prt: nat, file: Path)
    requires root != [] && prt >= 1
    requires RootReachable(t, root)
    requires IsPrefix(root, file) && |file| >= |root| + 2
    ensures Wipe(t, root, prt).err == None
    ensures Lookup(Wipe(t, root, prt).tree, file) == Err(ENOENT)
  {
    WipeResult(t, root, prt);
    var t' := Wipe(t, root, prt).tree;
    forall i | 0 <= i < prt ensures |PartitionDirs(root, prt)[i]| == |root| + 1 { }
    assert file !in t';
    forall k | 1 <= k < |file| ensures !RegularAt(t', file[..k]) {
      if k <= |root| {
        assert file[..k] == root[..k] && file[..k] in Ancestry(root);
      } else {
        assert IsPrefix(root, file[..k]);
      }
    }
  }

  // ---------------------------------------------------------------------
  // The store

  class DskStore {
    const path: Path
    const prt: int
    const lvl: int
    /** `sha1.Sum` of a key's bytes: the digest is taken as given. */
    const sum: string -> Digest

    /** What `NewDskStore` establishes and nothing afterwards changes. */
    predicate Valid()
    {
      1 <= prt <= MaxPartitions && 0 <= lvl <= MaxLevels
    }

    constructor (path: Path, prt: int, lvl: int, sum: string -> Digest)
      ensures this.path == path && this.prt == prt && this.lvl == lvl && this.sum == sum
    {
      this.path := path;
      this.prt := prt;
      this.lvl := lvl;
      this.sum := sum;
    }

    /** The path of the object stored under `fn`. */
    function File(fn: string): Path
      requires Valid()
    {
      CacheFile(path, prt, lvl, sum(fn), fn)
    }

    /** `getCachePath`: the directory and the file name of the object stored under `fn`. */
    method GetCachePath(fn: string) returns (base: Path, name: string)
      requires Valid()
      ensures base == CacheDir(path, prt, lvl, sum(fn)) && name == CacheName(sum(fn), fn)
      ensures base + [name] == File(fn)
    {
      var bs := sum(fn);
      base := path + [LowerHex(HighNibble(bs[0]) % prt)];
      var i := 0;
      while i < lvl
        invariant 0 <= i <= lvl
        invariant base == path + [PartitionSegment(bs, prt)] + Levels(bs, i)
      {
        base := base + [LowerHex(LowNibble(ShiftRight(bs[i / 2], -4 * (i % 2 - 1))))];
        i := i + 1;
      }
      name := HexEncode(bs) + Ext(TrimLeftDots(fn));
    }

    /** `createPartitions`: `MkdirAll` of each partition directory, stopping at the first failure. */
    method CreatePartitions(disk: Disk) returns (err: Option<Error>)
      requires Valid() && disk.Valid()
      modifies disk
      ensures disk.Valid()
      ensures Outcome(err, disk.tree) == MkdirEach(old(disk.tree), PartitionDirs(path, prt))
    {
      var w := |Decimal(prt)|;
      ghost var dirs := PartitionDirs(path, prt);
      var i := 0;
      while i < prt
        invariant 0 <= i <= prt && disk.Valid()
        invariant MkdirEach(old(disk.tree), dirs) == MkdirEach(disk.tree, dirs[i..])
      {
        var p := path + [ZeroPad(Decimal(i), w)];
        assert dirs[i..][0] == p && dirs[i..][1..] == dirs[i + 1..];
        MkdirEachHead(disk.tree, dirs[i..]);
        var e := disk.MkdirAll(p);
        if e.Some? {
          err := Some(Io(e.value));
          return;
        }
        i := i + 1;
      }
      err := None;
    }

    /**
     * `Exists`: true for a regular file, an error naming the key for anything
     * else at the path, false without error when nothing is there.
     */
    method Exists(disk: Disk, fn: string) returns (found: bool, err: Option<Error>)
      requires Valid()
      ensures found <==> RegularAt(disk.tree, File(fn))
      ensures Lookup(disk.tree, File(fn)) == Ok(Directory) ==> err == Some(NotAFile(fn))
      ensures Lookup(disk.tree, File(fn)) == Err(ENOENT) ==> err == None
      ensures RegularAt(disk.tree, File(fn)) ==> err == None
      ensures Lookup(disk.tree, File(fn)) == Err(ENOTDIR) ==>
        err == Some(Io(PathError(OpStat, File(fn), ENOTDIR)))
    {
      var base, name := GetCachePath(fn);
      var inf := disk.Stat(base + [name]);
      found := false;
      match inf
      case Err(e) =>
        err := if e.errno == ENOENT then None else Some(Io(e));
      case Ok(entry) =>
        if !entry.Regular? {
          err := Some(NotAFile(fn));
        } else {
          found, err := true, None;
        }
    }

    /** `Store`: make the directories, then write the object's file under an exclusive lock. */
    method Store(disk: Disk, fn: string, src: seq<Byte>) returns (err: Option<Error>)
      requires Valid() && disk.Valid()
      modifies disk
      ensures disk.Valid()
      ensures Outcome(err, disk.tree) ==
        PutObject(old(disk.tree), CacheDir(path, prt, lvl, sum(fn)), CacheName(sum(fn), fn), src)
    {
      var base, name := GetCachePath(fn);
      var e := disk.MkdirAll(base);
      if e.Some? {
        return Some(Io(e.value));
      }
      e := disk.WriteFile(base + [name], src);
      if e.Some? {
        return Some(Io(e.value));
      }
      return None;
    }

    /** `Retrieve`: the object's bytes; a missing file is the "object not found" error for the key. */
    method Retrieve(disk: Disk, fn: string) returns (data: seq<Byte>, err: Option<Error>)
      requires Valid()
      ensures RegularAt(disk.tree, File(fn)) ==> err == None && data == disk.tree[File(fn)].data
      ensures Lookup(disk.tree, File(fn)) == Err(ENOENT) ==> err == Some(NotFound(fn)) && data == []
      ensures Lookup(disk.tree, File(fn)) == Ok(Directory) ==>
        err == Some(Io(PathError(OpRead, File(fn), EISDIR))) && data == []
      ensures Lookup(disk.tree, File(fn)) == Err(ENOTDIR) ==>
        err == Some(Io(PathError(OpOpen, File(fn), ENOTDIR))) && data == []
    {
      var base, name := GetCachePath(fn);
      var r := disk.ReadFile(base + [name]);
      match r
      case Ok(bytes) =>
        data, err := bytes, None;
      case Err(e) =>
        data := [];
        err := if e.errno == ENOENT then Some(NotFound(fn)) else Some(Io(e));
    }

    /** `Clean`: remove the whole tree under the root, then recreate the partitions. */
    method Clean(disk: Disk) returns (err: Option<Error>)
      requires Valid() && disk.Valid()
      modifies disk
      ensures disk.Valid()
      ensures Outcome(err, disk.tree) == Wipe(old(disk.tree), path, prt)
    {
      var e := disk.RemoveAll(path);
      if e.Some? {
        return Some(Io(e.value));
      }
      err := CreatePartitions(disk);
    }
  }

  /**
   * `NewDskStore`: reject too many partitions, then too many levels, before
   * touching the disk; otherwise build the store and create its partitions.
   * As in the source, a failure to create them still returns the store.
   */
  method NewDskStore(path: Path, prt: int, lvl: int, sum: string -> Digest, disk: Disk)
    returns (d: DskStore?, err: Option<Error>)
    requires 1 <= prt && 0 <= lvl && disk.Valid()
    modifies disk
    ensures disk.Valid()
    ensures prt > MaxPartitions ==>
      d == null && err == Some(TooManyPartitions(prt)) && disk.tree == old(disk.tree)
    ensures prt <= MaxPartitions && lvl > MaxLevels ==>
      d == null && err == Some(TooManyLevels(lvl)) && disk.tree == old(disk.tree)
    ensures prt <= MaxPartitions && lvl <= MaxLevels ==>
      && d != null && fresh(d) && d.Valid()
      && d.path == path && d.prt == prt && d.lvl == lvl && d.sum == sum
      && Outcome(err, disk.tree) == MkdirEach(old(disk.tree), PartitionDirs(path, prt))
  {
    if prt > MaxPartitions {
      return null, Some(TooManyPartitions(prt));
    }
    if lvl > MaxLevels {
      return null, Some(TooManyLevels(lvl));
    }
    d := new DskStore(path, prt, lvl, sum);
    err := d.CreatePartitions(disk);
  }

  /** Objects whose keys have different digests never disturb each other. */
  lemma StoreKeepsOtherKeys(d: DskStore, t: Tree, fn1: string, fn2: string, data: seq<Byte>)
    requires d.Valid()
    requires d.sum(fn1) != d.sum(fn2)
    ensures var dir := CacheDir(d.path, d.prt, d.lvl, d.sum(fn1));
      Lookup(PutObject(t, dir, CacheName(d.sum(fn1), fn1), data).tree, d.File(fn2)) == Lookup(t, d.File(fn2))
  {
    CacheFileInjective(d.path, d.prt, d.lvl, d.sum(fn1), fn1, d.sum(fn2), fn2);
    PutKeepsOthers(t, CacheDir(d.path, d.prt, d.lvl, d.sum(fn1)), CacheName(d.sum(fn1), fn1), data, d.File(fn2));
  }

  /** `Store(fn, data)` then `Retrieve(fn)`: the path of `fn` is a regular file holding exactly `data`. */
  lemma StoreThenRetrieve(d: DskStore, t: Tree, fn: string, data: seq<Byte>)
    requires d.Valid()
    requires PutObject(t, CacheDir(d.path, d.prt, d.lvl, d.sum(fn)), CacheName(d.sum(fn), fn), data).err == None
    ensures var t' := PutObject(t, CacheDir(d.path, d.prt, d.lvl, d.sum(fn)), CacheName(d.sum(fn), fn), data).tree;
      RegularAt(t', d.File(fn)) && t'[d.File(fn)].data == data
  {
    PutThenRead(t, CacheDir(d.path, d.prt, d.lvl, d.sum(fn)), CacheName(d.sum(fn), fn), data);
  }

  /**
   * With no regular file above the root, `Clean` succeeds and afterwards no key
   * has an object: `Exists` is false and `Retrieve` reports it not found.
   */
  lemma CleanForgetsEveryKey(d: DskStore, t: Tree, fn: string)
    requires d.Valid() && d.path != []
    requires RootReachable(t, d.path)
    ensures Wipe(t, d.path, d.prt).err == None
    ensures Lookup(Wipe(t, d.path, d.prt).tree, d.File(fn)) == Err(ENOENT)
  {
    WipeLeavesNoObjects(t, d.path, d.prt, d.File(fn));
  }
}

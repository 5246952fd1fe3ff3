/**
 * Address derivation: where in the store's tree the object for a key lives
 * (`getCachePath`), and the names the partition directories are created with
 * (`createPartitions`).
 */
module Address {
  import opened Formats
  import opened PathNames

  const MaxPartitions: int := 16
  /** `sha1.Size`. */
  const DigestSize: int := 20
  const MaxLevels: int := DigestSize * 2

  /** The SHA-1 digest of a key, taken as given. */
  type Digest = s: seq<Byte> | |s| == DigestSize witness seq(DigestSize, _ => 0)

  /** `int(bs[0] >> 4) % prt`: the partition an object falls into. */
  function PartitionValue(bs: Digest, prt: int): (v: nat)
    requires prt >= 1
    ensures v < prt && v < 16
  {
    HighNibble(bs[0]) % prt
  }

  /** The partition element of the path, printed with `%x`: one lower-case hex digit. */
  function PartitionSegment(bs: Digest, prt: int): (seg: string)
    requires prt >= 1
    ensures seg == [Digit(PartitionValue(bs, prt))]
  {
    LowerHex(PartitionValue(bs, prt))
  }

  /** The shift amount `-4 * (i % 2 - 1)` of level `i`. */
  function LevelShift(i: nat): (s: int)
    ensures s == if i % 2 == 0 then 4 else 0
  {
    -4 * (i % 2 - 1)
  }

  /**
   * `(bs[i / 2] >> LevelShift(i)) & 0xf`: nibble `i` of the digest, which is
   * character `i` of its hexadecimal encoding.
   */
  function LevelNibble(bs: Digest, i: nat): (n: nat)
    requires i < MaxLevels
    ensures n < 16
    ensures Digit(n) == HexEncode(bs)[i]
  {
    HexEncodeAt(bs, i);
    LowNibble(ShiftRight(bs[i / 2], LevelShift(i)))
  }

  /** The `lvl` level elements below the partition, each one `%x` of a nibble. */
  function Levels(bs: Digest, lvl: nat): (segs: seq<string>)
    requires lvl <= MaxLevels
    ensures |segs| == lvl
    ensures forall i | 0 <= i < lvl :: segs[i] == [HexEncode(bs)[i]]
  {
    if lvl == 0 then []
    else Levels(bs, lvl - 1) + [LowerHex(LevelNibble(bs, lvl - 1))]
  }

  /** The object's file name: the hex digest followed by the key's extension. */
  function CacheName(bs: Digest, key: string): (name: string)
    ensures |name| >= 2 * DigestSize && name[..2 * DigestSize] == HexEncode(bs)
    ensures name[2 * DigestSize..] == KeyExt(key) && '/' !in name
  {
    HexEncode(bs) + KeyExt(key)
  }

  /** The directory `root/partition/level_0/.../level_{lvl-1}` an object lives in. */
  function CacheDir(root: Path, prt: int, lvl: nat, bs: Digest): (dir: Path)
    requires prt >= 1 && lvl <= MaxLevels
    ensures |dir| == |root| + 1 + lvl && dir[..|root|] == root
    ensures dir[|root|] == [Digit(PartitionValue(bs, prt))]
    ensures forall i | 0 <= i < lvl :: dir[|root| + 1 + i] == [HexEncode(bs)[i]]
  {
    root + [PartitionSegment(bs, prt)] + Levels(bs, lvl)
  }

  /** The full path of the object for `key`, whose digest is `bs`. */
  function CacheFile(root: Path, prt: int, lvl: nat, bs: Digest, key: string): (file: Path)
    requires prt >= 1 && lvl <= MaxLevels
    ensures |file| == |root| + 2 + lvl && IsPrefix(root, file)
    ensures file[..|file| - 1] == CacheDir(root, prt, lvl, bs)
    ensures file[|file| - 1] == CacheName(bs, key)
  {
    CacheDir(root, prt, lvl, bs) + [CacheName(bs, key)]
  }

  /** The level directories spell out the first `lvl` characters of the file name. */
  lemma LevelsSpellName(root: Path, prt: int, lvl: nat, bs: Digest, key: string)
    requires prt >= 1 && lvl <= MaxLevels
    ensures forall i | 0 <= i < lvl ::
      CacheFile(root, prt, lvl, bs, key)[|root| + 1 + i] == [CacheName(bs, key)[i]]
  {
    var file := CacheFile(root, prt, lvl, bs, key);
    var dir := CacheDir(root, prt, lvl, bs);
    var name := CacheName(bs, key);
    forall i | 0 <= i < lvl ensures file[|root| + 1 + i] == [name[i]] {
      assert file[|root| + 1 + i] == dir[|root| + 1 + i];
      assert name[i] == name[..2 * DigestSize][i];
    }
  }

  /** Every element below the root is one that joining with '/' keeps as it is. */
  lemma CacheFileSegmentsClean(root: Path, prt: int, lvl: nat, bs: Digest, key: string)
    requires prt >= 1 && lvl <= MaxLevels
    ensures var file := CacheFile(root, prt, lvl, bs, key);
      forall k | |root| <= k < |file| :: CleanSegment(file[k])
  {
    var file := CacheFile(root, prt, lvl, bs, key);
    var dir := CacheDir(root, prt, lvl, bs);
    var name := CacheName(bs, key);
    assert |name| > 2 && name[0] == HexEncode(bs)[0];
    forall k | |root| <= k < |file| - 1 ensures CleanSegment(file[k]) {
      assert file[k] == dir[k];
      var c := dir[k][0];
      if k > |root| {
        assert c == HexEncode(bs)[k - |root| - 1];
        assert c in HexEncode(bs);
      }
      assert IsHexDigit(c) && dir[k] == [c];
    }
    assert CleanSegment(file[|file| - 1]);
  }

  /** Distinct digests give distinct file names, whatever the keys' extensions. */
  lemma CacheNameInjective(bs1: Digest, key1: string, bs2: Digest, key2: string)
    requires bs1 != bs2
    ensures CacheName(bs1, key1) != CacheName(bs2, key2)
  {
    if CacheName(bs1, key1) == CacheName(bs2, key2) {
      HexEncodeInjective(bs1, bs2);
    }
  }

  /** Distinct digests never share a file. */
  lemma CacheFileInjective(root: Path, prt: int, lvl: nat, bs1: Digest, key1: string, bs2: Digest, key2: string)
    requires prt >= 1 && lvl <= MaxLevels
    requires bs1 != bs2
    ensures CacheFile(root, prt, lvl, bs1, key1) != CacheFile(root, prt, lvl, bs2, key2)
  {
    var f1 := CacheFile(root, prt, lvl, bs1, key1);
    var f2 := CacheFile(root, prt, lvl, bs2, key2);
    CacheNameInjective(bs1, key1, bs2, key2);
    assert f1[|f1| - 1] != f2[|f2| - 1];
  }

  /** `fmt.Sprintf("%0<w>d", i)` with `w = len(fmt.Sprint(prt))`. */
  function PartitionLabel(i: nat, prt: nat): string
  {
    ZeroPad(Decimal(i), |Decimal(prt)|)
  }

  /** The names `createPartitions` gives partitions `0 .. prt - 1`. */
  function PartitionLabels(prt: nat): (labels: seq<string>)
    ensures |labels| == prt
  {
    seq(prt, i requires 0 <= i < prt => PartitionLabel(i, prt))
  }

  /** Label `i` is `i` in decimal, padded to exactly the width of `prt`. */
  lemma PartitionLabelValue(i: nat, prt: nat)
    requires i < prt
    ensures |PartitionLabel(i, prt)| == |Decimal(prt)|
    ensures DecimalValue(PartitionLabel(i, prt)) == i
  {
    DecimalLengthMonotone(i, prt);
    PaddedDecimalValue(i, |Decimal(prt)|);
  }

  /** `createPartitions` names `prt` directories, no two alike. */
  lemma PartitionLabelsDistinct(prt: nat)
    ensures forall i, j | 0 <= i < j < prt :: PartitionLabels(prt)[i] != PartitionLabels(prt)[j]
  {
    var labels := PartitionLabels(prt);
    forall i, j | 0 <= i < j < prt ensures labels[i] != labels[j] {
      PartitionLabelValue(i, prt);
      PartitionLabelValue(j, prt);
    }
  }

  /**
   * The partition `getCachePath` picks is one `createPartitions` made exactly
   * when `prt <= 9`; from 10 on the created names have two or more digits
   * while the chosen one has one.
   */
  lemma PartitionSegmentAmongLabels(bs: Digest, prt: int)
    requires prt >= 1
    ensures PartitionSegment(bs, prt) in PartitionLabels(prt) <==> prt <= 9
  {
    var v := PartitionValue(bs, prt);
    var labels := PartitionLabels(prt);
    if prt <= 9 {
      assert labels[v] == PartitionSegment(bs, prt);
    } else {
      assert |Decimal(prt)| >= 2;
      forall i | 0 <= i < prt ensures |labels[i]| >= 2 { }
    }
  }

  /** From 10 partitions on, the partition chosen for a digest is never a created one. */
  lemma PartitionSegmentDivergence(bs: Digest, prt: int)
    requires 10 <= prt
    ensures forall i | 0 <= i < prt :: PartitionLabels(prt)[i] != PartitionSegment(bs, prt)
  {
    PartitionSegmentAmongLabels(bs, prt);
  }
}

# dskstore in Dafny

dskstore is a content-addressed on-disk object cache written in Go. A store
has three settings: a root directory, a partition count (at most 16) and a
level count (at most 40). A key is hashed with SHA-1. The first nibble of
the digest, taken modulo the partition count, picks a partition directory.
Below it, level `i` is a directory named by nibble `i` of the digest,
counting again from the first nibble, so level 0 uses the same nibble as
the partition (without the modulo). The object file is named by the 40-digit hexadecimal digest plus
the key's extension. The store can check whether a key has an object
(`Exists`), write one (`Store`), read one back (`Retrieve`) and wipe
everything (`Clean`). Creating a store first rejects bad settings and then
creates one zero-padded decimal directory per partition.

The model has six modules:

- `Formats` covers Go's byte shifts and masks, `encoding/hex`, and the
  `fmt` verbs `%x`, `%d` and `%0<w>d`.
- `PathNames` covers `strings.TrimLeft(fn, ".")` and `filepath.Ext`.
- `Address` covers how a key's digest becomes a directory path and a file
  name, and the labels `createPartitions` chooses.
- `FileSystem` is an abstract disk. It is a tree of regular files and
  directories. A `Disk` class holds it and offers the `os` and `lockedfile`
  calls the store makes (`Stat`, `MkdirAll`, `RemoveAll`,
  `lockedfile.Write`, `lockedfile.Read`). Each call is tied to a function
  on the tree.
- `DskStores` holds the `DskStore` class and `NewDskStore`. It also holds
  functions giving the effect of each operation on the tree: `PutObject`
  for `Store`, `MkdirEach` over `PartitionDirs` for `createPartitions`, and
  `Wipe` for `Clean`. The lemmas about those functions are here too: the
  store/retrieve round trip, overwrite, keys not disturbing each other, and
  what a wipe leaves behind.
- `Wrappers` holds `Option` and `Result`.

A path is a sequence of path elements. The empty sequence is the
filesystem root, and the root always exists as a directory. `sha1.Sum` is
the store's `sum` field: a function from a key to a 20-byte digest. The
lemmas about keys not disturbing each other (`Address.CacheNameInjective`,
`Address.CacheFileInjective`, `DskStores.StoreKeepsOtherKeys`) are
therefore stated for keys whose digests differ. The store/retrieve round
trip holds for every key.

Some behaviour of the code worth spelling out:

- The width of the partition labels is the number of decimal digits of the
  partition count itself, `len(fmt.Sprint(prt))` at `dskstore.go:129`, so
  10 partitions give the labels `00`…`09`.
- When `createPartitions` fails, `NewDskStore` returns the store and the
  error together (`dskstore.go:56-64`). The model's `NewDskStore` does the
  same.
- `Clean` returns as soon as `os.RemoveAll` fails (`dskstore.go:117-118`).
  On this disk that happens when a regular file stands above the root, and
  then no partition is created.
- Partition directories are named in zero-padded decimal
  (`dskstore.go:129-132`). Objects are placed in the directory named by the
  unpadded lower-case hexadecimal value (`dskstore.go:144`). The two agree
  for up to 9 partitions and never agree from 10 on. The lemmas
  `Address.PartitionSegmentAmongLabels` and
  `Address.PartitionSegmentDivergence` state this. The behaviour is not an
  error in the store: `MkdirAll` in `Store` creates the hexadecimal
  directory when it is missing.

## Model

| member | source | states |
|---|---|---|
| Formats.HighNibble | dskstore.go:144 | `bs[0] >> 4` is a nibble, and together with the low nibble it rebuilds the byte |
| Formats.ShiftRightFour | dskstore.go:146 | shifting a byte right by four divides it by sixteen |
| Formats.HexEncode | dskstore.go:149 | `hex.EncodeToString` gives two characters per byte, all of them lower-case hexadecimal digits |
| Formats.HexEncodeAt | dskstore.go:149 | character `i` of the encoding is the high nibble (even `i`) or the low nibble (odd `i`) of byte `i/2` |
| Formats.HexRoundTrip | dskstore.go:149 | decoding the hexadecimal encoding gives back the bytes |
| Formats.HexEncodeInjective | dskstore.go:149 | different digests get different hexadecimal names |
| Formats.DigitValue | dskstore.go:144-146 | every lower-case hexadecimal digit is the `%x` digit of exactly one nibble, and it is a decimal digit iff the nibble is below ten |
| Formats.DigitInjective | dskstore.go:144-146 | different nibbles print as different digits |
| Formats.LowerHex | dskstore.go:144-146 | `%x` of a number is never empty, and it is one character long exactly when the number is below 16 |
| Formats.Decimal | dskstore.go:129 | `fmt.Sprint` of a number is never empty, and it is one character long exactly when the number is below 10 |
| Formats.DecimalRoundTrip | dskstore.go:129-132 | a printed decimal reads back as the number |
| Formats.DecimalLengthMonotone | dskstore.go:129-132 | a smaller number never prints longer, so every label `i < prt` fits the width taken from `prt` |
| Formats.ZeroPad | dskstore.go:132 | `%0<w>d` padding has the larger of the two widths, keeps the digits as a suffix and fills with zeros |
| Formats.DecimalValueLeadingZeros | dskstore.go:132 | leading zeros do not change the value a digit string spells |
| Formats.PaddedDecimalValue | dskstore.go:129-132 | a zero-padded decimal still reads back as its number |
| PathNames.TrimLeftDots | dskstore.go:149 | `strings.TrimLeft(fn, ".")` removes exactly the leading dots and leaves a suffix that does not start with one |
| PathNames.ExtFrom | dskstore.go:149 | scanning back from a position gives the suffix after the last dot in the final path element, or nothing |
| PathNames.Ext | dskstore.go:149 | `filepath.Ext` is a suffix of the name with no `/`. It is empty or starts with its only dot. It is empty exactly when the last element has no dot |
| PathNames.KeyExt | dskstore.go:149 | the key's extension is a suffix of the key with no `/`, empty or starting with its only dot, and never the whole of the key once its leading dots are trimmed, so leading dots are never an extension |
| PathNames.ExtAtLastDot | dskstore.go:149 | when the last dot of the final element is at `i`, the extension is everything from `i` on |
| PathNames.KeyExtOfCsvReport | dskstore.go:149 | the key `reports/q3.csv` has extension `.csv` |
| PathNames.KeyExtOfLeadingDots | dskstore.go:149 | the key `...hidden` has no extension: its leading dots are trimmed before the extension is taken |
| Address.PartitionValue | dskstore.go:144 | the partition index `int(bs[0] >> 4) % prt` is below `prt` and below 16 |
| Address.PartitionSegment | dskstore.go:144 | the partition directory of an object is the single `%x` digit of its partition index |
| Address.LevelShift | dskstore.go:146 | the shift `-4 * (i % 2 - 1)` is 4 at even levels and 0 at odd ones |
| Address.LevelNibble | dskstore.go:146 | the nibble for level `i` prints as character `i` of the hexadecimal digest |
| Address.Levels | dskstore.go:145-147 | there are `lvl` level directories, and directory `i` is character `i` of the digest's hexadecimal encoding |
| Address.CacheName | dskstore.go:149 | the file name is the 40-digit hexadecimal digest followed by the key's extension, and contains no `/` |
| Address.CacheDir | dskstore.go:141-147 | the object's directory is the root, then the partition digit, then the `lvl` level digits |
| Address.CacheFile | dskstore.go:141-152 | the object's path lies under the root, is `lvl + 2` elements longer than it, and ends in directory then name |
| Address.LevelsSpellName | dskstore.go:145-149 | the level directories spell the first `lvl` characters of the file name |
| Address.CacheFileSegmentsClean | dskstore.go:144-149 | every element the store adds below the root is a clean path element: non-empty, no `/`, not `.` or `..` |
| Address.CacheNameInjective | dskstore.go:149 | different digests give different file names, whatever the keys' extensions |
| Address.CacheFileInjective | dskstore.go:141-152 | keys with different digests are stored at different paths |
| Address.PartitionLabels | dskstore.go:129-136 | `createPartitions` makes exactly `prt` labels |
| Address.PartitionLabelValue | dskstore.go:129-132 | label `i` has the width of `prt` printed in decimal and reads back as `i` |
| Address.PartitionLabelsDistinct | dskstore.go:131-136 | the partition labels are pairwise different |
| Address.PartitionSegmentAmongLabels | dskstore.go:129-144 | the partition directory an object goes to is one of the created labels iff `prt <= 9` |
| Address.PartitionSegmentDivergence | dskstore.go:129-144 | for `prt >= 10` no created label is the directory any object goes to |
| FileSystem.Lookup | dskstore.go:72 | a path resolves to its entry; a failure means the path is absent |
| FileSystem.RemoveSubtree | dskstore.go:117 | a successful `os.RemoveAll` keeps exactly the entries not at or under the path, unchanged |
| FileSystem.Blocker | dskstore.go:92 | the path `os.MkdirAll` reports is a regular file on the way to the directory asked for |
| FileSystem.BlockerIsUnique | dskstore.go:92 | on a tree, `MkdirAll` fails with `ENOTDIR` naming exactly the regular file among the path's ancestors |
| FileSystem.MakeDirsResult | dskstore.go:92 | `os.MkdirAll` succeeds iff no element of the path is a regular file, and then the path is a directory |
| FileSystem.WfMakeDirs | dskstore.go:92 | `MkdirAll` keeps the tree well formed |
| FileSystem.WfWrite | dskstore.go:96 | writing a file keeps the tree well formed |
| FileSystem.WfRemoveSubtree | dskstore.go:117 | removing a subtree keeps the tree well formed |
| FileSystem.Disk.Stat | dskstore.go:72 | `os.Stat` gives the resolved entry, or a stat error carrying the resolution failure |
| FileSystem.Disk.MkdirAll | dskstore.go:92 | the disk becomes `MakeDirs` of the old tree on success. On failure it is unchanged and the error is `mkdir` with `ENOTDIR` on the regular file in the way |
| FileSystem.Disk.WriteFile | dskstore.go:96 | the disk becomes `Write` of the old tree on success and is unchanged on failure |
| FileSystem.Disk.ReadFile | dskstore.go:106 | the result is `Read` of the tree |
| FileSystem.Disk.RemoveAll | dskstore.go:117 | the disk becomes the old tree without the subtree. When a regular file stands above the path, it fails with `ENOTDIR` and the disk is unchanged |
| DskStores.PartitionDirs | dskstore.go:131-132 | `createPartitions` asks for exactly `prt` directories |
| DskStores.PutObjectSucceeds | dskstore.go:90-101 | `Store` succeeds iff no directory of the object's path is a regular file and the object's path is not a directory |
| DskStores.PutThenRead | dskstore.go:90-114 | after a successful `Store`, the object's path is a regular file, and reading it gives exactly the stored bytes |
| DskStores.PutOverwrites | dskstore.go:90-101 | storing again at the same path succeeds and replaces only that file's bytes |
| DskStores.PutKeepsOthers | dskstore.go:90-101 | `Store` does not change what any other path of the object's depth resolves to |
| DskStores.MkdirEachAllDirs | dskstore.go:131-136 | with no regular file in the way, the partition loop succeeds and adds exactly the directories asked for and their ancestors |
| DskStores.MkdirEachKeepsDirs | dskstore.go:131-136 | the partition loop never removes or replaces a directory, even when it fails |
| DskStores.MkdirEachMakesAll | dskstore.go:131-136 | after a successful partition loop every partition directory exists |
| DskStores.WipeSucceeds | dskstore.go:116-126 | with no regular file above the root, `Clean` succeeds and the tree is the old one without the root's subtree plus the partitions and their ancestors |
| DskStores.WipeFails | dskstore.go:116-126 | a regular file above the root makes `Clean` fail with the `ENOTDIR` of `os.RemoveAll`, with the disk unchanged and no partition created |
| DskStores.WipeResult | dskstore.go:116-139 | `Clean` succeeds iff no regular file is above the root. After it, the root's subtree holds only the root and the partitions, all directories, and nothing else has changed |
| DskStores.WipeLeavesNoObjects | dskstore.go:116-139 | with no regular file above the root, `Clean` succeeds and afterwards every path two or more levels below the root is missing |
| DskStores.DskStore.constructor | dskstore.go:56-60 | the store holds the given root, partition count, level count and digest |
| DskStores.DskStore.GetCachePath | dskstore.go:141-152 | the loop builds exactly the object's directory, and the name is the digest name plus extension |
| DskStores.DskStore.CreatePartitions | dskstore.go:128-139 | the disk ends as `MkdirAll` of each partition in turn, stopping at the first failure, and that failure is reported |
| DskStores.DskStore.Exists | dskstore.go:69-88 | the result is true iff a regular file is at the object's path. A directory there is a "not a file" error for the key. A missing path is no error. Any other stat failure is passed on |
| DskStores.DskStore.Store | dskstore.go:90-101 | the disk and the error are `MkdirAll` of the object's directory, then the write of its file |
| DskStores.DskStore.Retrieve | dskstore.go:103-114 | the result is the file's bytes. A missing path is "object not found" for the key. A directory or a file in the way is passed on as the read or open error |
| DskStores.DskStore.Clean | dskstore.go:116-126 | the disk and the error are removing the root's subtree, returning at once if that fails, and otherwise creating the partitions |
| DskStores.NewDskStore | dskstore.go:41-67 | too many partitions are rejected first, then too many levels, and in both cases the disk is untouched and no store is made. Otherwise the store is made and its partitions are created, and the store is returned even when that fails |
| DskStores.StoreKeepsOtherKeys | dskstore.go:90-101 | storing one key does not change what a key with a different digest finds |
| DskStores.StoreThenRetrieve | dskstore.go:90-114 | after a successful `Store`, the key's object is a regular file holding exactly the stored bytes, so `Exists` is true and `Retrieve` returns them |
| DskStores.CleanForgetsEveryKey | dskstore.go:116-139 | with no regular file above the root, `Clean` succeeds and afterwards no key's object path exists, so `Exists` is false and `Retrieve` reports "object not found" |

## Left out

- SHA-1 is not modelled. The digest is the store's `sum` function, and results that need distinct paths assume distinct digests.
- The file locking done by `lockedfile` is not modelled, and neither is concurrent use of one store. The model is sequential.
- Permission modes (`dirMode`, `fileMode`) are not modelled. Neither are failures from permissions, a full disk or other I/O errors. The disk fails only with `ENOENT`, `ENOTDIR` and `EISDIR`.
- FileSystem.Disk.RemoveAll: fails only when a regular file stands above the path. `os.RemoveAll` can also fail on permissions, which the disk does not have.
- Symbolic links and special files are not modelled. The disk holds only regular files and directories.
- `filepath.Abs` is not modelled. The root is given as an absolute path already split into elements, so the `Abs` failure path of `NewDskStore` is left out.
- `filepath.Join`'s cleaning is not modelled. Paths are joined by appending elements. `Address.CacheFileSegmentsClean` shows that the elements the store adds need no cleaning.
- The object's data is a byte sequence rather than an `io.Reader`. A reader that fails partway is not modelled.
- Keys are Dafny strings, which are sequences of Unicode characters. A Go key is a byte string and may be invalid UTF-8, which the model cannot express. The key is only searched for `.` and `/`, both ASCII, so trimming and taking the extension are unaffected.
- Error messages are not reproduced. Errors are datatype values naming the key or the failed call.
- DskStores.NewDskStore: requires `prt >= 1` and `lvl >= 0`. The source does not reject zero or negative partition counts, which would make the modulo in `getCachePath` fail, or negative level counts.

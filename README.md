# drivelayout, stat_devs_list and dupedb in Dafny

This project models three pieces of the file_keeper repository. Each one reads the
machine's disk layout.

- **drivelayout.py** runs `mount`, `blkid`, `fdisk -s` and `fdisk -l`. From their
  output it builds two tables:
  - `mntpnt`: partition -> mount point;
  - `devs`: disk -> partition -> attributes.

  It then prints a report for each disk, in sorted order:
  - the disk's geometry;
  - each partition's attributes, with SEC_TYPE dropped;
  - for a mounted partition: its free and reserved space and the first names of its
    files.

  Along the way it mounts, on `/mnt/drive-test-temp`, each partition that is not
  mounted and not swap, on a disk for which `fdisk -l` printed lines. `dsz` formats a
  byte count x with 1 <= x < 1024^6 in the largest unit that keeps the number at
  least 1; smaller counts show in bytes, and from 1024^6 on it raises IndexError.
- **file_keeper/file_db.py**, `stat_devs_list`: the records of the mounted partitions,
  by disk and then by partition in sorted order. Each record is marked in place with
  its disk, its partition and its mount point.
- **file_keeper/attic/dupedb.py** works in four steps:
  - find the partition that holds the path to scan, and its UUID;
  - get or create its row in the `device` table;
  - walk the path, logging every file at or above `--min-size` into the `file` table;
  - at the top of each directory, print a progress line unless the count of files
    scanned so far is a multiple of 1000 (so never for the first directory).

The script's algorithms and loops are Dafny methods. Each method is proved equal to a
specification function. Lemmas state what those functions promise. Two pieces of state
are updated in place, so each is a class:
- `FileDb.PartRecord`, for the records that `stat_devs_list` writes into;
- `DupeDb.Db`, for the two tables of the sqlite file.

The model does not run commands, system calls or the database. It takes what they
answer as input:
- in drivelayout, a `Host` value: lines of output, `statvfs` and `glob` as functions;
- in dupedb: the walk as a list of directories, `os.stat(...).st_dev` as a function,
  and the iteration order of each dict as a list of keys.

What the script prints is modelled as a list of `Output` records, and each `runCmd` as
a `Command` event holding its argument words. An exception becomes an `Error` value
that ends the run.

Modules:
- `Wrappers`: Option, Result and the exceptions.
- `Text`: `str.strip`, `str.split`, `os.path.basename`, `os.path.join`, `int` and `str`.
- `Order`: string order, `sorted`, `list.sort`.
- `Dicts`: building a dict from pairs, where the last write wins, and grouping by a key.
- `DriveLayout`: dsz, and reading `mount` and `blkid`.
- `DriveReport`: the report of drivelayout's `main`.
- `ReportFacts`: what the whole report promises.
- `FileDb`: stat_devs_list.
- `DupeDb`: dupedb.

## Model

| member | source | states |
|---|---|---|
| DriveLayout.Dsz | drivelayout.py:14-19 | The while loop's result is `DszText(x)`: the text of the number and its unit, or the IndexError raised once the unit index passes "Pb". |
| DriveLayout.DszDefined | drivelayout.py:14-19 | dsz succeeds exactly when x < 1024^6. From 1024^6 on, the unit index is 6 and indexing the six-entry unit list raises IndexError. |
| DriveLayout.DszReading | drivelayout.py:14-19 | For 0 <= x < 1024^6, dsz prints n and the u-th unit. u is 0 exactly when x < 1024; otherwise u is the largest u with 1024^u <= x. n is the floor of x / 1024^u, with 0 <= n < 1024 and n >= 1 whenever u > 0. |
| DriveLayout.Scale | drivelayout.py:15-18 | The loop divides no times below 1024, and at least once from 1024 on. |
| DriveLayout.ScaleBounds | drivelayout.py:15-18 | From 1024 on, the number of divisions u satisfies 1024^u <= x < 1024^(u+1). |
| DriveLayout.Lead | drivelayout.py:16-19 | The printed number is x itself below 1024, and between 1 and 1023 from 1024 on. |
| DriveLayout.LeadBounds | drivelayout.py:16-19 | The printed number n satisfies 1024^u * n <= x < 1024^u * (n+1): repeated floor division by 1024 is floor division by 1024^u. |
| DriveLayout.ParseMounts | drivelayout.py:28-32 | The loop over the lines of `mount` yields `MountTable(lines)`. |
| DriveLayout.MountTableFails | drivelayout.py:28-32 | Reading `mount` fails exactly when some line has fewer than three words, and the error is then IndexError. |
| DriveLayout.MountTableLookup | drivelayout.py:28-32 | The first word of every line is a key. It maps to the line's third word when no later line has the same first word, so the last line wins. |
| DriveLayout.ParseInfo | drivelayout.py:45-47 | The loop over the items of one blkid line yields `AttrTable(info)`. |
| DriveLayout.AttrTableFails | drivelayout.py:45-47 | The items fail to read exactly when some item does not split on '=' into two parts, and the error is then ValueError. |
| DriveLayout.AttrTableLookup | drivelayout.py:45-47 | Every item's key is present. It is bound to the unquoted value of its last item. |
| DriveLayout.SizeText | drivelayout.py:51-60 | SIZE is "0M" when `fdisk -s` printed nothing. Otherwise it succeeds exactly when `int` accepts the text (digits, after an optional sign and blanks), and is then the label of the number of 1 KiB blocks floor-divided by 1024; when `int` rejects the text it is ValueError. |
| DriveLayout.SizeLabelMeaning | drivelayout.py:55-59 | For a partition of kib 1 KiB blocks, SIZE is a number q and a unit. With "M", q < 1024 and q is kib // 1024. With "G", q >= 1 and q is kib // 1024^2. |
| DriveLayout.ReadBlkidLine | drivelayout.py:40-60 | One blkid line gives its partition and attributes, SIZE included. It is a ValueError unless ": " splits the line into exactly two parts. |
| DriveLayout.ParseBlkid | drivelayout.py:37-60 | The loop over the lines of blkid yields `BlkidTable(lines, fdiskSize)`. |
| DriveLayout.BlkidTableFails | drivelayout.py:39-60 | Reading blkid fails exactly when some line is bad, and with the error of the first bad line. |
| DriveLayout.BlkidTableDisks | drivelayout.py:41-44 | No disk of devs is empty. Every partition is filed under its name with the digits stripped from both ends. |
| DriveLayout.BlkidTableRecord | drivelayout.py:39-60 | Every line's partition is filed under its disk. Its record is that line's attributes when no later line names the same partition. |
| Dicts.FromPairsLast | drivelayout.py:32 | Filling a dict pair by pair keeps every key, with the value of the last pair that has it. |
| Dicts.ReadPairs | drivelayout.py:30-32 | Reading lines in turn succeeds exactly when every line reads. It then gives every line's value in order; otherwise it gives the first failing line's error. |
| Dicts.SetDefaultFiles | drivelayout.py:42-44 | Creating the disk's dict when it is missing and then storing the partition in it is filing the record under its disk. |
| Dicts.GroupBySplits | drivelayout.py:39-44 | The grouped table is the flat dict of the records (last write wins) split by disk: every partition sits under its own disk, no disk is empty, and each flat entry is in it with the same value. |
| Text.WordsOfJoin | drivelayout.py:31 | Splitting on whitespace recovers words that contain no whitespace and are joined by single spaces. |
| Text.JoinSplit | drivelayout.py:40 | Joining the parts of `split(': ')` with ": " gives back the line. |
| Text.StripCharsSlice | drivelayout.py:41 | `strip(chars)` removes a leading and a trailing run of those characters and keeps the middle untouched. |
| Text.ParseIntSigned | drivelayout.py:55 | `int` accepts a sign, any blanks after it, and digits, and gives the digits' value with that sign. |
| Text.ParseIntUnsigned | drivelayout.py:55 | `int` of a string of digits is their decimal value. |
| Text.ParseIntOfString | drivelayout.py:55-57 | `int(str(n)) == n` for every integer n. |
| Text.BasenameSuffix | drivelayout.py:78 | `os.path.basename` is a suffix of the path and contains no '/'. |
| Text.PathJoinParts | drivelayout.py:98 | `os.path.join(a, b)` ends with b, and starts with a unless b is absolute. |
| Order.LessTotal | drivelayout.py:61 | String order is total: of two different strings, one is smaller. |
| Order.SortedKeys | drivelayout.py:61 | `sorted(keys)` lists each key once, in increasing order, and nothing else. |
| Order.SortedSetSize | drivelayout.py:75 | The sorted keys are exactly as many as the keys. |
| Order.SortSorts | drivelayout.py:99 | `list.sort` gives a sorted permutation of the list. |
| DriveReport.DiskGeometry | drivelayout.py:66-69 | The geometry is words 2 and 3 (counting from 0) of the stripped second line of `fdisk -l`. It is read exactly when there are at least two lines and the second has at least four words; otherwise IndexError. The two words are non-empty and contain no whitespace. |
| DriveReport.GeometryPrinted | drivelayout.py:67 | What the disk line printed before `devLines[1].split()[3]` raised: the third word of the second line, exactly when there are two lines and it has at least three words, and nothing otherwise; when the geometry reads, it is the first geometry word. |
| DriveReport.ItemsListed | drivelayout.py:79-80 | The attribute line lists each key once, in increasing order, with its value, and nothing else. |
| DriveReport.ShowItems | drivelayout.py:79-80 | The comprehension over the sorted keys yields `Items(attrs)`. |
| DriveReport.FreePercent | drivelayout.py:96 | The percentage raises ZeroDivisionError exactly when f_blocks is 0. Otherwise it is the floor of bavail*100/blocks, and at most 100 when bavail <= blocks. |
| DriveReport.PercentBounds | drivelayout.py:96 | q*blocks <= bavail*100 < (q+1)*blocks for the floor quotient q. |
| DriveReport.Sizes | drivelayout.py:94-97 | The size lines begin with the mount point. They succeed exactly when dsz of bsize*bavail reads, f_blocks > 0 and dsz of bsize*(bfree-bavail) reads. The FREE line carries dsz of bsize*bavail and the percentage `FreePercent(bavail, blocks)`; the RESV line carries dsz of bsize*(bfree-bavail). A failing FREE size ends them after the mount point with IndexError, f_blocks = 0 with ZeroDivisionError, and a failing RESV size after the FREE line with IndexError. |
| DriveReport.Usage | drivelayout.py:91-100 | The usage lines are the size lines, with their outcome, and, when those raised nothing, a fourth line listing `glob(m/*)` as `Listing` shows it. |
| DriveReport.ShortNamesShort | drivelayout.py:98 | Each short name starts its path's base name, contains no '/', and is the whole base name when that has at most 10 characters, else its first 10. |
| DriveReport.ListingShows | drivelayout.py:98-100 | The file line is a prefix of the sorted short names joined by spaces (a sorted permutation of them): the whole text when it has at most 70 characters, else its first 70. |
| DriveReport.ReportSizes | drivelayout.py:94-97 | The statements computing FREE and RESV yield `Sizes`. |
| DriveReport.ReportUsage | drivelayout.py:91-100 | The mounted-partition block yields `Usage`. |
| DriveReport.ListPartition | drivelayout.py:76-90 | Dropping SEC_TYPE, printing the attributes and the temporary mount yield `PartitionHead`. |
| DriveReport.ReportPartition | drivelayout.py:75-100 | The body of the partition loop yields `PartitionReport`. |
| DriveReport.ReportDisk | drivelayout.py:61-100 | The body of the disk loop yields `DiskReport`, including the disk line cut short by IndexError (the disk and what `GeometryPrinted` says was printed). |
| DriveReport.ReportNextDisk | drivelayout.py:61-100 | A disk's events, then the remaining disks' report, are the report of the disks from that one on. |
| DriveReport.ReportDisks | drivelayout.py:61-100 | The loop over the sorted disks yields `DisksReport`. |
| DriveReport.ShowLayout | drivelayout.py:25-102 | main yields `Layout(h)`: read `mount` and blkid, report every disk, then unmount the temporary mount point. |
| ReportFacts.LineFacts | drivelayout.py:76-80 | A partition's attribute line shows no SEC_TYPE item and runs no command. |
| ReportFacts.MountCommandsFacts | drivelayout.py:83-88 | The mount commands mount only the partition, once, and the table then maps it to the temporary mount point. |
| ReportFacts.HeadFacts | drivelayout.py:76-90 | A partition's head shows no SEC_TYPE. It mounts the partition only when the disk has fdisk output, the partition is not mounted and it is not swap. |
| ReportFacts.UsageFacts | drivelayout.py:91-100 | The usage lines show no attribute line and run no command. |
| ReportFacts.SizesShowOnly | drivelayout.py:94-97 | The size lines are output only. |
| ReportFacts.PartitionFacts | drivelayout.py:75-100 | A partition's report shows no SEC_TYPE and mounts at most that partition, under the temporary-mount test, with the table recording it. |
| ReportFacts.PartsFacts | drivelayout.py:75-100 | A disk's partitions show no SEC_TYPE. They mount only partitions that may be mounted, each once, and only when the table lacked it. |
| ReportFacts.DiskNamed | drivelayout.py:62-69 | A disk's report starts with a line naming the disk. It is cut short exactly when `fdisk -l` printed lines but no geometry can be read; it is then the only event, the run fails with IndexError, and the cut line shows the third word of the second line exactly when that line has three words, and nothing otherwise. Otherwise the line shows no geometry when `fdisk -l` printed nothing, and the `DiskGeometry` words when it printed lines. |
| ReportFacts.DiskFacts | drivelayout.py:61-100 | One disk's report keeps the same three properties. |
| ReportFacts.DisksFacts | drivelayout.py:61-100 | The reports of all disks keep the same three properties. |
| ReportFacts.LayoutEvents | drivelayout.py:61-102 | The whole run's events keep the three properties. |
| ReportFacts.LayoutFacts | drivelayout.py:75-102 | No attribute line shows SEC_TYPE. Every partition mounted on the temporary mount point was not listed by `mount`, is not swap, and lies on a disk for which `fdisk -l` printed lines. No partition is mounted twice. |
| FileDb.StatDevsList | file_keeper/file_db.py:51-63 | The result lists the dicts of the listed partitions themselves, in listing order. Every partition's dict gets DEV and PART, and every mounted one's gets MNTPNT; nothing else changes. |
| FileDb.AnnotateDisks | file_keeper/file_db.py:55-62 | The outer loop over the given disks yields their listing and marks all their partitions. Other disks' records are unchanged. |
| FileDb.AnnotateDisk | file_keeper/file_db.py:56-62 | One disk's inner loop yields its listing and marks its partitions. Other disks' records are unchanged. |
| FileDb.AnnotateNames | file_keeper/file_db.py:56-62 | The inner loop over the given names marks them and appends the mounted ones. |
| FileDb.Mark | file_keeper/file_db.py:57-61 | The three assignments turn a dict into `Annotated(...)`. |
| FileDb.AnnotatedKeys | file_keeper/file_db.py:57-61 | A marked dict has DEV = its disk and PART = its name. MNTPNT is the mount point when mounted, and otherwise what it was. Every other key is kept. |
| FileDb.ListingFacts | file_keeper/file_db.py:55-62 | A (disk, partition) pair is listed exactly when the partition is in mntpnts. Pairs appear in strictly increasing (disk, partition) order, and there are no more of them than partitions. |
| FileDb.ListingPartsUnique | file_keeper/file_db.py:55-62 | When each partition lies on one disk, no partition is listed twice. |
| FileDb.DiskListedFacts | file_keeper/file_db.py:56-62 | One disk's listing holds exactly its mounted partitions among the names, in the names' order. |
| FileDb.ListedMembers | file_keeper/file_db.py:55-62 | The listing of the given disks holds exactly their mounted partitions. |
| FileDb.ListedOrdered | file_keeper/file_db.py:55-62 | The listing of increasing disks is increasing by (disk, partition). |
| FileDb.ListedCount | file_keeper/file_db.py:55-62 | The listing has no more entries than there are partitions. |
| DupeDb.DefaultMinSizeReading | file_keeper/attic/dupedb.py:125 | The default --min-size is 10 * 1024^2, which dsz shows as "10 Mb". |
| DupeDb.Max | file_keeper/attic/dupedb.py:95-100 | The largest id is one of the ids and at least every id. |
| DupeDb.NextIdFresh | file_keeper/attic/dupedb.py:15-16 | The rowid of an inserted row is above every rowid already in the table. |
| DupeDb.FindMount | file_keeper/attic/dupedb.py:67-74 | The for/else search over mntpnts yields `FirstMount`. |
| DupeDb.FirstMountFacts | file_keeper/attic/dupedb.py:67-74 | The search finds nothing exactly when no mount point is on the scanned path's device. Otherwise it finds the first partition, in dict order, whose mount point is. |
| DupeDb.FindUuid | file_keeper/attic/dupedb.py:78-85 | The for/else search over devs yields `FirstUuid`. |
| DupeDb.FirstUuidFacts | file_keeper/attic/dupedb.py:78-85 | The search finds nothing exactly when no disk has the partition. Otherwise the first disk with it decides: its UUID and LABEL (or none), or KeyError when there is no UUID. |
| DupeDb.MatchingFacts | file_keeper/attic/dupedb.py:88-91 | The select fetches the id of every row with the UUID, and only ids of such rows; it fetches nothing exactly when no row has the UUID, and never more ids than rows. |
| DupeDb.MatchingSeveral | file_keeper/attic/dupedb.py:88-93 | The select fetches more than one row exactly when two rows of the table carry the UUID. |
| DupeDb.MatchingUnique | file_keeper/attic/dupedb.py:88-92 | With no UUID twice in the table, the select fetches at most one row. |
| DupeDb.Db.DeviceFor | file_keeper/attic/dupedb.py:88-100 | The select, the insert when nothing was found, the second select and `res[0][0]` yield `DeviceLookup`'s id and table. |
| DupeDb.DeviceLookupFacts | file_keeper/attic/dupedb.py:88-100 | Get-or-create raises "More than one entry for UUID ..." exactly when two rows of the table carry the UUID, and then changes nothing. Otherwise it keeps the table, or appends one row (fresh id, UUID, mount point, label). The returned id is then the only one with that UUID. |
| DupeDb.DeviceLookupIdempotent | file_keeper/attic/dupedb.py:88-100 | Running get-or-create again with the same UUID returns the same id and changes nothing. |
| DupeDb.DeviceLookupKeeps | file_keeper/attic/dupedb.py:88-100 | On a table with no repeated UUID or id, get-or-create succeeds and keeps both unique. |
| DupeDb.Db.LogFile | file_keeper/attic/dupedb.py:36-53 | log_file appends one file row: the next rowid, the device, the path and st_size, with hash null. |
| DupeDb.LoggedRows | file_keeper/attic/dupedb.py:114-116 | Logging appends exactly one row per entry, in order, with the device, path and size and a null hash. Rows already there are kept. |
| DupeDb.LoggedIds | file_keeper/attic/dupedb.py:24-31 | Logging keeps file ids unique. |
| DupeDb.RescanDuplicates | file_keeper/attic/dupedb.py:24-33 | No index makes (device, path) unique, so scanning the same files twice logs each of them twice. |
| DupeDb.LargeOfMembers | file_keeper/attic/dupedb.py:114-116 | The logged entries are exactly the entries of size >= min-size, and no more of them than entries. |
| DupeDb.TalliedFacts | file_keeper/attic/dupedb.py:102-116 | The counters after a run of files are: scanned up by their number, large up by the number at or above min-size, and bytes up by their total size. |
| DupeDb.ShownFacts | file_keeper/attic/dupedb.py:105-108 | Progress lines are printed only when scanned is not a multiple of 1000, at most one per directory, and never for a walk of one directory. |
| DupeDb.Db.ScanFile | file_keeper/attic/dupedb.py:110-116 | One file adds its size to bytes and 1 to scanned. When it is at least min-size, it adds 1 to large and logs the file. |
| DupeDb.Db.ScanDir | file_keeper/attic/dupedb.py:109-116 | The inner loop over a directory's files tallies them and logs the large ones. |
| DupeDb.Db.Scan | file_keeper/attic/dupedb.py:102-116 | The walk tallies and logs the files of every directory it got through, with a progress line (bytes shown by dsz) for each directory where one is printed. It stops early only at a progress line whose dsz raises. |
| DupeDb.Run | file_keeper/attic/dupedb.py:56-116 | main exits with status 1 exactly when there is no mount point or no UUID entry, and a KeyError is raised when there is no UUID. Otherwise the device table is `DeviceLookup`'s. A finished walk reports the device id, the tally, the logged rows and the progress lines of the whole walk. |

## Left out

- Commands, system calls and the database engine are not executed: `subprocess.Popen`, `os.statvfs`, `glob.glob`, `os.stat`, `os.walk`, `os.path.realpath`/`abspath`, `sqlite3.connect`, `commit`. Their answers are inputs (`Host`, `stDev`, the walk, the `Db` tables).
- The terminal colour codes and the `isatty` test (drivelayout.py:70-74) and `time.sleep` are left out: they change neither the report's content nor any state.
- The `try`/`except: pass` around the temporary mount (drivelayout.py:82-90): the commands are not run, so they cannot raise here, and the model always records the mount. `runCmd('mount %s ...' % part)` is modelled as the three words `mount`, the partition and the mount point, so a partition name containing whitespace is not modelled.
- Print formatting (`%s`, the `print x,` spacing, the "files:/large:/scanned:" labels) is modelled as `Output` and `Progress` records. dupedb's prints of "Scanning", "Mounted on" and "label:... uuid:..." and the two "Can't find" messages are left out. Exit code 1 is kept.
- stat_devs is not part of this model: `FileDb.StatDevsList` takes its result (`devs`, `mntpnts`) as parameters, and dupedb's `main` takes it as `devs`/`mntpnts`.
- FileDb.StatDevsList: requires every partition to have a dict of its own (as stat_devs and drivelayout.py:44 build them); records shared between partitions are not modelled.
- `DriveLayout.ReadBlkidLine`, `DriveReport.ReportSizes` and `DriveReport.ReportUsage` are methods beside the functions `BlkidEntry`, `Sizes` and `Usage` because each runs a loop method (`ParseInfo`, `Dsz`); the line-reading steps without a loop are functions only.
- The JSON dump of file_db.py's `main`, the argument parsers and the other commands of file_keeper are not part of this model.
- Python dict iteration order (dupedb.py:69, 78) is an input: a list of the dict's keys in iteration order.
- DupeDb.NextId: sqlite's choice of rowid once the largest rowid is at the 64-bit maximum is not modelled, nor the `SIGNED BIG INT` width of `bytes` and `device`; sizes and ids are unbounded integers.
- `os.statvfs` raising on a missing or unreadable mount point (drivelayout.py:95) is not modelled: `Host.statvfs` answers for every mount point.
- `os.stat` raising on a missing mount point or file during the walk is not modelled; each file's size is part of the walk.
- DupeDb.Run: when the walk stops because dsz raises, its contract says only that the outcome is that IndexError; `DupeDb.Db.Scan` states where the walk stopped and what it had logged.
- Byte-level text: strings are sequences of characters with ASCII whitespace and digits; Unicode whitespace in `str.split()`/`strip()` is not modelled.

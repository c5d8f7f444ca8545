/**
 * The report of drivelayout.py's main(): for each disk of the devs dict in sorted
 * order, its geometry line from `fdisk -l`; for each of its partitions in sorted
 * order, its attributes (SEC_TYPE dropped), a temporary mount of a partition that is
 * not mounted, not swap and on a disk fdisk knows, and for a mounted partition its
 * mount point, free and reserved space and the first names of its files.
 *
 * What the script prints is modelled as a list of `Output` records and the commands it
 * runs as `Command` events, in the order they happen; an exception ends the list.
 */
module DriveReport {
  import opened Wrappers
  import opened Text
  import opened Order
  import opened DriveLayout

  /** Where a partition that is not mounted is mounted for inspection. */
  const TempMount: string := "/mnt/drive-test-temp"

  /** The fields of os.statvfs the report reads. */
  datatype StatVfs = StatVfs(bsize: nat, blocks: nat, bfree: nat, bavail: nat)

  /** What the machine answers: the outputs of the commands and system calls main() makes. */
  datatype Host = Host(
    mountLines: seq<string>,           // the lines `mount` prints
    blkidLines: seq<string>,           // the lines `blkid` prints
    fdiskSize: string -> string,       // what `fdisk -s PART` prints
    fdiskList: string -> seq<string>,  // the lines `fdisk -l DISK` prints
    statvfs: string -> StatVfs,        // os.statvfs of a mount point
    glob: string -> seq<string>)       // the paths glob.glob lists for a pattern

  /** One piece of what the script prints. */
  datatype Output =
    | Disk(dev: string, geometry: Option<(string, string)>)  // None: "NO INFO."
    | DiskCut(dev: string, printed: seq<string>)              // the disk line an IndexError cut short
    | Partition(name: string, items: seq<(string, string)>)
    | MountedOn(mntpnt: string)
    | Free(size: string, percent: int)
    | Reserved(size: string)
    | Files(listing: string)

  /** A piece of output, or a command run through runCmd (its words, as Popen receives them). */
  datatype Event = Show(output: Output) | Command(argv: seq<string>)

  /** What a stretch of the report did: its events, the mount table after it, and the exception that ended it. */
  datatype Run = Run(events: seq<Event>, mnt: map<string, string>, failure: Option<Error>)

  /** The events of an earlier stretch followed by a run. */
  function Prepend(events: seq<Event>, r: Run): Run {
    Run(events + r.events, r.mnt, r.failure)
  }

  // ---------------------------------------------------------------------------
  // Pieces of one disk's and one partition's report

  /** The third and fourth words of the second line of `fdisk -l DISK` (its size and unit). */
  function DiskGeometry(lines: seq<string>): (r: Result<(string, string)>)
    ensures r.Ok? <==> |lines| >= 2 && |Words(Strip(lines[1]))| >= 4
    ensures r.Err? ==> r.error == IndexError
    ensures r.Ok? ==> var w := Words(Strip(lines[1])); r.value == (w[2], w[3])
    ensures r.Ok? ==> r.value.0 != [] && r.value.1 != []
                      && NoneOf(r.value.0, Whitespace) && NoneOf(r.value.1, Whitespace)
  {
    if |lines| < 2 then Err(IndexError)
    else
      var w := Words(Strip(lines[1]));
      if |w| < 4 then Err(IndexError) else Ok((w[2], w[3]))
  }

  /**
   * The geometry words the disk line has printed when reading the fourth one would fail:
   * the print statement writes each item as soon as it is evaluated, so the third word
   * of the second line is out before the index that raises. When the geometry can be
   * read, this is its first word.
   */
  function GeometryPrinted(lines: seq<string>): (r: seq<string>)
    ensures |r| <= 1
    ensures r != [] <==> |lines| >= 2 && |Words(Strip(lines[1]))| >= 3
    ensures r != [] ==> r == [Words(Strip(lines[1]))[2]]
    ensures DiskGeometry(lines).Ok? ==> r == [DiskGeometry(lines).value.0]
  {
    if |lines| >= 2 && |Words(Strip(lines[1]))| >= 3 then [Words(Strip(lines[1]))[2]] else []
  }

  /** The attributes of a partition as listed, by key. */
  ghost function Items(attrs: Attrs): seq<(string, string)> {
    var keys := SortedSet(attrs.Keys);
    seq(|keys|, i requires 0 <= i < |keys| => (keys[i], attrs[keys[i]]))
  }

  /** Each key of the attributes is listed once, in increasing order, with its value, and nothing else is. */
  lemma ItemsListed(attrs: Attrs)
    ensures var items := Items(attrs);
      && (forall i, j :: 0 <= i < j < |items| ==> Less(items[i].0, items[j].0))
      && (forall i :: 0 <= i < |items| ==> items[i].0 in attrs && items[i].1 == attrs[items[i].0])
      && (forall k :: k in attrs ==> exists i :: 0 <= i < |items| && items[i].0 == k)
  {
    var keys := SortedSet(attrs.Keys);
    var items := Items(attrs);
    forall k | k in attrs ensures exists i :: 0 <= i < |items| && items[i].0 == k {
      assert k in keys;
      var i :| 0 <= i < |keys| && keys[i] == k;
      assert items[i].0 == k;
    }
  }

  /** The list comprehension over sorted(attrs.keys()) that builds the attribute line. */
  method ShowItems(attrs: Attrs) returns (items: seq<(string, string)>)
    ensures items == Items(attrs)
  {
    var keys := SortedKeys(attrs.Keys);
    items := [];
    for i := 0 to |keys|
      invariant |items| == i
      invariant forall j :: 0 <= j < i ==> items[j] == (keys[j], attrs[keys[j]])
    {
      items := items + [(keys[i], attrs[keys[i]])];
    }
  }

  /** The partition's TYPE is swap. */
  predicate IsSwap(attrs: Attrs) {
    "TYPE" in attrs && attrs["TYPE"] == "swap"
  }

  /** The partition is mounted on TempMount: fdisk knows its disk, it is not mounted, and TYPE is not swap. */
  predicate TriesTempMount(hasInfo: bool, part: string, mnt: map<string, string>, attrs: Attrs) {
    hasInfo && part !in mnt && !IsSwap(attrs)
  }

  /** The commands run to mount part on TempMount. */
  function MountCommands(part: string): seq<Event> {
    [Command(["mkdir", "-p", TempMount]), Command(["umount", TempMount]), Command(["mount", part, TempMount])]
  }

  /** int(bavail * 100 / blocks) with Python 2's floor division of non-negative integers. */
  function FreePercent(bavail: nat, blocks: nat): (r: Result<int>)
    ensures r.Err? <==> blocks == 0
    ensures r.Err? ==> r.error == ZeroDivisionError
    ensures r.Ok? ==> r.value >= 0 && r.value * blocks <= bavail * 100 < (r.value + 1) * blocks
    ensures r.Ok? && bavail <= blocks ==> r.value <= 100
  {
    if blocks == 0 then Err(ZeroDivisionError)
    else
      var q := bavail * 100 / blocks;
      PercentBounds(bavail, blocks, q);
      Ok(q)
  }

  lemma PercentBounds(bavail: nat, blocks: nat, q: int)
    requires blocks > 0 && q == bavail * 100 / blocks
    ensures q >= 0 && q * blocks <= bavail * 100 < (q + 1) * blocks
    ensures bavail <= blocks ==> q <= 100
  {
    var r := bavail * 100 % blocks;
    assert bavail * 100 == q * blocks + r;
    assert (q + 1) * blocks == q * blocks + blocks;
    assert (q - 100) * blocks == q * blocks - 100 * blocks;
  }

  /** os.path.basename of each path, cut to 10 characters. */
  function ShortNames(paths: seq<string>): seq<string> {
    seq(|paths|, i requires 0 <= i < |paths| => Take(Basename(paths[i]), 10))
  }

  /** Each short name is the start of its path's base name, at most 10 characters long and without a slash. */
  lemma ShortNamesShort(paths: seq<string>)
    ensures var names := ShortNames(paths);
      && |names| == |paths|
      && forall i :: 0 <= i < |paths| ==>
           && |names[i]| <= 10 && '/' !in names[i] && names[i] <= Basename(paths[i])
           && |names[i]| == (if |Basename(paths[i])| <= 10 then |Basename(paths[i])| else 10)
  {
    forall i | 0 <= i < |paths| ensures '/' !in ShortNames(paths)[i] {
      BasenameSuffix(paths[i]);
    }
  }

  /** The file line: the short names sorted, joined by spaces, and the result cut to 70 characters. */
  function Listing(paths: seq<string>): string {
    Take(JoinWith(Sort(ShortNames(paths)), " "), 70)
  }

  /**
   * The file line is at most 70 characters and starts the short names of the files,
   * in order and with each one as often as a file has it, joined by spaces; it is all
   * of that text when the text fits.
   */
  lemma ListingShows(paths: seq<string>)
    ensures var r, names := Listing(paths), Sort(ShortNames(paths));
      && |r| <= 70
      && |r| == (if |JoinWith(names, " ")| <= 70 then |JoinWith(names, " ")| else 70)
      && Sorted(names) && multiset(names) == multiset(ShortNames(paths))
      && r <= JoinWith(names, " ")
      && (|JoinWith(names, " ")| <= 70 ==> r == JoinWith(names, " "))
  {
    SortSorts(ShortNames(paths));
  }

  /**
   * The size lines of a mount point: the mount point, then the free space and the
   * percentage free, then the reserved space; an exception in a size or the
   * percentage ends them after what was printed.
   */
  function Sizes(st: StatVfs, m: string): (r: (seq<Event>, Option<Error>))
    ensures 1 <= |r.0| <= 3 && r.0[0] == Show(MountedOn(m))
    ensures r.1.None? <==> |r.0| == 3
    ensures r.1.Some? ==> |r.0| <= 2
    ensures var free, resv := DszText(st.bsize * st.bavail), DszText(st.bsize * (st.bfree - st.bavail));
      && (r.1.None? <==> free.Ok? && st.blocks > 0 && resv.Ok?)
      && (free.Err? ==> r == ([Show(MountedOn(m))], Some(IndexError)))
      && (free.Ok? && st.blocks == 0 ==> r == ([Show(MountedOn(m))], Some(ZeroDivisionError)))
      && (free.Ok? && st.blocks > 0 ==> |r.0| >= 2 && r.0[1] == Show(Free(free.value, FreePercent(st.bavail, st.blocks).value)))
      && (free.Ok? && st.blocks > 0 && resv.Err? ==> |r.0| == 2 && r.1 == Some(IndexError))
      && (r.1.None? ==> r.0[2] == Show(Reserved(resv.value)))
  {
    var shown := [Show(MountedOn(m))];
    match DszText(st.bsize * st.bavail)
    case Err(e) => (shown, Some(e))
    case Ok(free) =>
      match FreePercent(st.bavail, st.blocks)
      case Err(e) => (shown, Some(e))
      case Ok(percent) =>
        var shown := shown + [Show(Free(free, percent))];
        match DszText(st.bsize * (st.bfree - st.bavail))
        case Err(e) => (shown, Some(e))
        case Ok(resv) => (shown + [Show(Reserved(resv))], None)
  }

  /** What the report shows for a mount point: its size lines and, unless they raised, its file line. */
  function Usage(h: Host, m: string): (r: (seq<Event>, Option<Error>))
    ensures 1 <= |r.0| <= 4 && r.0[0] == Show(MountedOn(m))
    ensures r.1.None? <==> |r.0| == 4
    ensures r.1.Some? ==> |r.0| <= 2
    ensures var sizes := Sizes(h.statvfs(m), m);
      && r.1 == sizes.1
      && |sizes.0| <= |r.0| && r.0[..|sizes.0|] == sizes.0
      && (r.1.None? ==> r.0[3] == Show(Files(Listing(h.glob(PathJoin(m, "*"))))))
  {
    var (shown, failure) := Sizes(h.statvfs(m), m);
    if failure.Some? then (shown, failure)
    else (shown + [Show(Files(Listing(h.glob(PathJoin(m, "*")))))], None)
  }

  /**
   * The first part of a partition's report: its line of attributes (SEC_TYPE dropped)
   * and, when it qualifies, the commands that mount it on TempMount, which the mount
   * table then records.
   */
  ghost function PartitionHead(hasInfo: bool, part: string, attrs: Attrs, mnt: map<string, string>): Run {
    var shown := attrs - {"SEC_TYPE"};
    var tries := TriesTempMount(hasInfo, part, mnt, shown);
    Run([Show(Partition(Basename(part), Items(shown)))] + (if tries then MountCommands(part) else []),
        if tries then mnt[part := TempMount] else mnt,
        None)
  }

  /** The report for one partition of a disk, given whether fdisk knows the disk and the mount table so far. */
  ghost function PartitionReport(h: Host, hasInfo: bool, part: string, attrs: Attrs, mnt: map<string, string>): Run {
    var head := PartitionHead(hasInfo, part, attrs, mnt);
    if hasInfo && part in head.mnt then
      var (usage, failure) := Usage(h, head.mnt[part]);
      Run(head.events + usage, head.mnt, failure)
    else head
  }

  /** The reports for the named partitions of a disk, in order, until one raises. */
  ghost function PartsReport(h: Host, hasInfo: bool, names: seq<string>, parts: map<string, Attrs>,
                             mnt: map<string, string>): Run
    requires forall n :: n in names ==> n in parts
    decreases |names|
  {
    if names == [] then Run([], mnt, None)
    else
      var r := PartitionReport(h, hasInfo, names[0], parts[names[0]], mnt);
      if r.failure.Some? then r
      else Prepend(r.events, PartsReport(h, hasInfo, names[1..], parts, r.mnt))
  }

  /**
   * The report for one disk: its geometry line (or "NO INFO.") and then its partitions in
   * sorted order; when the geometry cannot be read, the part of the line printed before
   * the IndexError.
   */
  ghost function DiskReport(h: Host, dev: string, parts: map<string, Attrs>, mnt: map<string, string>): Run {
    var lines := h.fdiskList(dev);
    var hasInfo := lines != [];
    var geometry := if hasInfo then DiskGeometry(lines) else Ok(("", ""));
    if geometry.Err? then Run([Show(DiskCut(dev, GeometryPrinted(lines)))], mnt, Some(geometry.error))
    else
      var head := Show(Disk(dev, if hasInfo then Some(geometry.value) else None));
      Prepend([head], PartsReport(h, hasInfo, SortedSet(parts.Keys), parts, mnt))
  }

  /** The reports for the named disks, in order, until one raises. */
  ghost function DisksReport(h: Host, names: seq<string>, devs: DiskTable, mnt: map<string, string>): Run
    requires forall n :: n in names ==> n in devs
    decreases |names|
  {
    if names == [] then Run([], mnt, None)
    else
      var r := DiskReport(h, names[0], devs[names[0]], mnt);
      if r.failure.Some? then r
      else Prepend(r.events, DisksReport(h, names[1..], devs, r.mnt))
  }

  /** The whole run of main(): read `mount` and `blkid`, report every disk, unmount TempMount. */
  ghost function Layout(h: Host): (r: (seq<Event>, Option<Error>))
  {
    match MountTable(h.mountLines)
    case Err(e) => ([], Some(e))
    case Ok(mnt) =>
      match BlkidTable(h.blkidLines, h.fdiskSize)
      case Err(e) => ([], Some(e))
      case Ok(devs) =>
        var r := DisksReport(h, SortedSet(devs.Keys), devs, mnt);
        if r.failure.Some? then (r.events, r.failure)
        else (r.events + [Command(["umount", TempMount])], None)
  }

  /** Prepending twice is prepending the two stretches in order. */
  lemma PrependTwice(a: seq<Event>, b: seq<Event>, r: Run)
    ensures Prepend(a, Prepend(b, r)) == Prepend(a + b, r)
  {
    assert a + (b + r.events) == (a + b) + r.events;
  }

  /** The partitions from the i-th on: the i-th one's report, then (unless it raised) the rest. */
  lemma PartsReportAt(h: Host, hasInfo: bool, names: seq<string>, parts: map<string, Attrs>,
                      mnt: map<string, string>, i: nat)
    requires i < |names| && forall n :: n in names ==> n in parts
    ensures var r := PartitionReport(h, hasInfo, names[i], parts[names[i]], mnt);
      PartsReport(h, hasInfo, names[i..], parts, mnt)
      == if r.failure.Some? then r else Prepend(r.events, PartsReport(h, hasInfo, names[i + 1..], parts, r.mnt))
  {
    var tail := names[i..];
    assert tail[0] == names[i] && tail[1..] == names[i + 1..];
    var r := PartitionReport(h, hasInfo, tail[0], parts[tail[0]], mnt);
    assert PartsReport(h, hasInfo, tail, parts, mnt)
      == if r.failure.Some? then r else Prepend(r.events, PartsReport(h, hasInfo, tail[1..], parts, r.mnt));
  }

  /** The disks from the i-th on: the i-th one's report, then (unless it raised) the rest. */
  lemma DisksReportAt(h: Host, names: seq<string>, devs: DiskTable, mnt: map<string, string>, i: nat)
    requires i < |names| && forall n :: n in names ==> n in devs
    ensures var r := DiskReport(h, names[i], devs[names[i]], mnt);
      DisksReport(h, names[i..], devs, mnt)
      == if r.failure.Some? then r else Prepend(r.events, DisksReport(h, names[i + 1..], devs, r.mnt))
  {
    assert names[i..][0] == names[i] && names[i..][1..] == names[i + 1..];
  }

  // ---------------------------------------------------------------------------
  // main() as the script runs it

  /** The body of the loop over the partitions of a disk. */
  method ReportPartition(h: Host, hasInfo: bool, part: string, attrs: Attrs, mnt0: map<string, string>)
    returns (events: seq<Event>, mnt: map<string, string>, failure: Option<Error>)
    ensures Run(events, mnt, failure) == PartitionReport(h, hasInfo, part, attrs, mnt0)
  {
    events, mnt := ListPartition(hasInfo, part, attrs, mnt0);
    failure := None;
    if hasInfo && part in mnt {
      var usage;
      usage, failure := ReportUsage(h, mnt[part]);
      events := events + usage;
    }
  }

  /** The attribute line of a partition, and its mount on TempMount when it qualifies. */
  method ListPartition(hasInfo: bool, part: string, attrs0: Attrs, mnt0: map<string, string>)
    returns (events: seq<Event>, mnt: map<string, string>)
    ensures Run(events, mnt, None) == PartitionHead(hasInfo, part, attrs0, mnt0)
  {
    var attrs := attrs0;
    if "SEC_TYPE" in attrs {
      attrs := attrs - {"SEC_TYPE"};
    }
    assert attrs == attrs0 - {"SEC_TYPE"};
    var items := ShowItems(attrs);
    events := [Show(Partition(Basename(part), items))];
    mnt := mnt0;
    if hasInfo && part !in mnt && !("TYPE" in attrs && attrs["TYPE"] == "swap") {
      events := events + MountCommands(part);
      mnt := mnt[part := TempMount];
    }
  }

  /** The lines for a mounted partition: ON, FREE and RESV, then the file names. */
  method ReportUsage(h: Host, m: string) returns (events: seq<Event>, failure: Option<Error>)
    ensures (events, failure) == Usage(h, m)
  {
    events, failure := ReportSizes(h.statvfs(m), m);
    if failure.None? {
      events := events + [Show(Files(Listing(h.glob(PathJoin(m, "*")))))];
    }
  }

  /** The ON, FREE and RESV lines of a mount point. */
  method ReportSizes(st: StatVfs, m: string) returns (events: seq<Event>, failure: Option<Error>)
    ensures (events, failure) == Sizes(st, m)
  {
    events := [Show(MountedOn(m))];
    failure := None;
    var free := Dsz(st.bsize * st.bavail);
    if free.Err? {
      failure := Some(free.error);
      return;
    }
    var percent := FreePercent(st.bavail, st.blocks);
    if percent.Err? {
      failure := Some(percent.error);
      return;
    }
    events := events + [Show(Free(free.value, percent.value))];
    var resv := Dsz(st.bsize * (st.bfree - st.bavail));
    if resv.Err? {
      failure := Some(resv.error);
      return;
    }
    events := events + [Show(Reserved(resv.value))];
  }

  /** The body of the loop over the disks: the geometry line and the loop over the disk's partitions. */
  method ReportDisk(h: Host, dev: string, parts: map<string, Attrs>, mnt0: map<string, string>)
    returns (events: seq<Event>, mnt: map<string, string>, failure: Option<Error>)
    ensures Run(events, mnt, failure) == DiskReport(h, dev, parts, mnt0)
  {
    var lines := h.fdiskList(dev);
    var hasInfo := lines != [];
    var head: Output;
    if hasInfo {
      var geometry := DiskGeometry(lines);
      if geometry.Err? {
        var printed := GeometryPrinted(lines);
        return [Show(DiskCut(dev, printed))], mnt0, Some(geometry.error);
      }
      head := Disk(dev, Some(geometry.value));
    } else {
      head := Disk(dev, None);
    }
    events := [Show(head)];
    mnt := mnt0;
    failure := None;
    var names := SortedKeys(parts.Keys);
    ghost var whole := DiskReport(h, dev, parts, mnt0);
    assert whole == Prepend(events, PartsReport(h, hasInfo, names, parts, mnt0));
    assert names[0..] == names;
    for i := 0 to |names|
      invariant Prepend(events, PartsReport(h, hasInfo, names[i..], parts, mnt)) == whole
    {
      PartsReportAt(h, hasInfo, names, parts, mnt, i);
      var shown, mnt', f := ReportPartition(h, hasInfo, names[i], parts[names[i]], mnt);
      PrependTwice(events, shown, PartsReport(h, hasInfo, names[i + 1..], parts, mnt'));
      events, mnt := events + shown, mnt';
      if f.Some? {
        failure := f;
        return;
      }
    }
  }

  /** main(): the mount table, the devs dict, the loop over the disks in sorted order, the final umount. */
  method ShowLayout(h: Host) returns (events: seq<Event>, failure: Option<Error>)
    ensures (events, failure) == Layout(h)
  {
    var mounts := ParseMounts(h.mountLines);
    if mounts.Err? {
      return [], Some(mounts.error);
    }
    var table := ParseBlkid(h.blkidLines, h.fdiskSize);
    if table.Err? {
      return [], Some(table.error);
    }
    var mnt;
    events, mnt, failure := ReportDisks(h, table.value, mounts.value);
    if failure.None? {
      events := events + [Command(["umount", TempMount])];
    }
  }

  /** The loop of main() over the disks in sorted order. */
  method ReportDisks(h: Host, devs: DiskTable, mnt0: map<string, string>)
    returns (events: seq<Event>, mnt: map<string, string>, failure: Option<Error>)
    ensures Run(events, mnt, failure) == DisksReport(h, SortedSet(devs.Keys), devs, mnt0)
  {
    events, mnt, failure := [], mnt0, None;
    var names := SortedKeys(devs.Keys);
    ghost var whole := DisksReport(h, names, devs, mnt0);
    assert names[0..] == names;
    for i := 0 to |names|
      invariant Prepend(events, DisksReport(h, names[i..], devs, mnt)) == whole
    {
      var shown, mnt', f := ReportNextDisk(h, names, devs, mnt, i);
      if f.Some? {
        events, mnt, failure := events + shown, mnt', f;
        return;
      }
      PrependTwice(events, shown, DisksReport(h, names[i + 1..], devs, mnt'));
      events, mnt := events + shown, mnt';
    }
  }

  /** One round of the loop over the disks: the report of the i-th disk. */
  method ReportNextDisk(h: Host, names: seq<string>, devs: DiskTable, mnt0: map<string, string>, i: nat)
    returns (events: seq<Event>, mnt: map<string, string>, failure: Option<Error>)
    requires i < |names| && forall n :: n in names ==> n in devs
    ensures DisksReport(h, names[i..], devs, mnt0)
      == if failure.Some? then Run(events, mnt, failure) else Prepend(events, DisksReport(h, names[i + 1..], devs, mnt))
  {
    DisksReportAt(h, names, devs, mnt0, i);
    events, mnt, failure := ReportDisk(h, names[i], devs[names[i]], mnt0);
  }
}

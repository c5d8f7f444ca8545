/**
 * What the whole report of drivelayout.py promises about its output and its mounts:
 * no attribute line shows SEC_TYPE, and the only partitions it mounts on TempMount are
 * ones `mount` did not list, that are not swap and whose disk `fdisk -l` knows, each
 * at most once.
 */
module ReportFacts {
  import opened Wrappers
  import opened Text
  import opened Order
  import opened DriveLayout
  import opened DriveReport

  /** No attribute line among the events lists a SEC_TYPE item. */
  ghost predicate SecTypeHidden(events: seq<Event>) {
    forall i, j ::
      0 <= i < |events| && events[i].Show? && events[i].output.Partition? && 0 <= j < |events[i].output.items|
      ==> events[i].output.items[j].0 != "SEC_TYPE"
  }

  /** The event mounts a partition on TempMount. */
  predicate IsMount(e: Event) {
    e.Command? && |e.argv| == 3 && e.argv[0] == "mount" && e.argv[2] == TempMount
  }

  /**
   * The mounts among the events, with the mount table `before` and `after` them: each
   * is of a partition `before` lacks, which `after` maps to TempMount; no partition is
   * mounted twice; and `after` keeps every entry of `before`.
   */
  ghost predicate MountsFresh(events: seq<Event>, before: map<string, string>, after: map<string, string>) {
    && (forall p :: p in before ==> p in after && after[p] == before[p])
    && (forall i :: 0 <= i < |events| && IsMount(events[i]) ==>
          events[i].argv[1] !in before && events[i].argv[1] in after && after[events[i].argv[1]] == TempMount)
    && (forall i, j :: 0 <= i < j < |events| && IsMount(events[i]) && IsMount(events[j]) ==>
          events[i].argv[1] != events[j].argv[1])
  }

  /** Every partition the events mount is in s. */
  ghost predicate MountsWithin(events: seq<Event>, s: set<string>) {
    forall i :: 0 <= i < |events| && IsMount(events[i]) ==> events[i].argv[1] in s
  }

  /** The named partitions of a disk that may be mounted: fdisk knows the disk and they are not swap. */
  ghost function Mountable(hasInfo: bool, names: seq<string>, parts: map<string, Attrs>): set<string> {
    set p | p in names && p in parts && hasInfo && !IsSwap(parts[p])
  }

  /** The partitions of all disks that may be mounted: on a disk fdisk knows, and not swap. */
  ghost function MountableOnDisks(h: Host, devs: DiskTable): set<string> {
    set dev, p | dev in devs && p in devs[dev] && h.fdiskList(dev) != [] && !IsSwap(devs[dev][p]) :: p
  }

  // ---------------------------------------------------------------------------
  // How the three properties combine over consecutive stretches

  lemma SecTypeHiddenAppend(a: seq<Event>, b: seq<Event>)
    requires SecTypeHidden(a) && SecTypeHidden(b)
    ensures SecTypeHidden(a + b)
  {
    forall i | 0 <= i < |a + b| ensures (a + b)[i] == if i < |a| then a[i] else b[i - |a|] {
    }
  }

  lemma MountsFreshAppend(a: seq<Event>, b: seq<Event>, m0: map<string, string>, m1: map<string, string>,
                          m2: map<string, string>)
    requires MountsFresh(a, m0, m1) && MountsFresh(b, m1, m2)
    ensures MountsFresh(a + b, m0, m2)
  {
    var ab := a + b;
    forall i | 0 <= i < |ab| ensures ab[i] == if i < |a| then a[i] else b[i - |a|] {
    }
    forall i, j | 0 <= i < j < |ab| && IsMount(ab[i]) && IsMount(ab[j]) ensures ab[i].argv[1] != ab[j].argv[1] {
      if j >= |a| && i < |a| {
        assert ab[i].argv[1] in m1 && ab[j].argv[1] !in m1;
      }
    }
  }

  lemma MountsWithinAppend(a: seq<Event>, b: seq<Event>, s: set<string>)
    requires MountsWithin(a, s) && MountsWithin(b, s)
    ensures MountsWithin(a + b, s)
  {
    forall i | 0 <= i < |a + b| ensures (a + b)[i] == if i < |a| then a[i] else b[i - |a|] {
    }
  }

  lemma MountsWithinWeaken(events: seq<Event>, s: set<string>, t: set<string>)
    requires MountsWithin(events, s) && s <= t
    ensures MountsWithin(events, t)
  {
  }

  // ---------------------------------------------------------------------------
  // One partition, the partitions of a disk, one disk, all disks, the whole run

  /** The size lines of a mount point are output, and none of them is an attribute line. */
  lemma SizesShowOnly(st: StatVfs, m: string)
    ensures forall e :: e in Sizes(st, m).0 ==> e.Show? && !e.output.Partition?
  {
  }

  /** The usage lines of a mount point show no attribute line and run no command. */
  lemma UsageFacts(h: Host, m: string, mnt: map<string, string>)
    ensures var usage := Usage(h, m).0;
      SecTypeHidden(usage) && MountsFresh(usage, mnt, mnt) && MountsWithin(usage, {})
  {
    var shown := Sizes(h.statvfs(m), m).0;
    SizesShowOnly(h.statvfs(m), m);
    var files := [Show(Files(Listing(h.glob(PathJoin(m, "*")))))];
    var usage := Usage(h, m).0;
    assert usage == shown || usage == shown + files;
    assert forall i :: 0 <= i < |usage| ==> usage[i] in shown || usage[i] in files;
  }

  /** A partition's attribute line lists no SEC_TYPE item and runs no command. */
  lemma LineFacts(part: string, attrs: Attrs, mnt: map<string, string>)
    ensures var line := [Show(Partition(Basename(part), Items(attrs - {"SEC_TYPE"})))];
      SecTypeHidden(line) && MountsFresh(line, mnt, mnt) && MountsWithin(line, {})
  {
    ItemsListed(attrs - {"SEC_TYPE"});
  }

  /** The commands that mount a partition the table lacks mount it, and only it, once. */
  lemma MountCommandsFacts(part: string, mnt: map<string, string>)
    requires part !in mnt
    ensures var cmds := MountCommands(part);
      SecTypeHidden(cmds) && MountsFresh(cmds, mnt, mnt[part := TempMount]) && MountsWithin(cmds, {part})
  {
    assert "mkdir"[1] != "mount"[1];
  }

  /** A partition's attribute line shows no SEC_TYPE, and it is mounted only when TriesTempMount holds. */
  lemma HeadFacts(hasInfo: bool, part: string, attrs: Attrs, mnt: map<string, string>)
    ensures var r := PartitionHead(hasInfo, part, attrs, mnt);
      && SecTypeHidden(r.events)
      && MountsFresh(r.events, mnt, r.mnt)
      && MountsWithin(r.events, if TriesTempMount(hasInfo, part, mnt, attrs) then {part} else {})
  {
    var shown := attrs - {"SEC_TYPE"};
    assert IsSwap(shown) == IsSwap(attrs);
    var line := [Show(Partition(Basename(part), Items(shown)))];
    LineFacts(part, attrs, mnt);
    if TriesTempMount(hasInfo, part, mnt, attrs) {
      var cmds := MountCommands(part);
      MountCommandsFacts(part, mnt);
      MountsWithinWeaken(line, {}, {part});
      SecTypeHiddenAppend(line, cmds);
      MountsFreshAppend(line, cmds, mnt, mnt, mnt[part := TempMount]);
      MountsWithinAppend(line, cmds, {part});
    }
  }

  /**
   * A partition's report shows no SEC_TYPE, and mounts at most the partition itself,
   * only when TriesTempMount holds for it, and records that in the mount table.
   */
  lemma PartitionFacts(h: Host, hasInfo: bool, part: string, attrs: Attrs, mnt: map<string, string>)
    ensures var r := PartitionReport(h, hasInfo, part, attrs, mnt);
      && SecTypeHidden(r.events)
      && MountsFresh(r.events, mnt, r.mnt)
      && MountsWithin(r.events, if TriesTempMount(hasInfo, part, mnt, attrs) then {part} else {})
  {
    var head := PartitionHead(hasInfo, part, attrs, mnt);
    var s := if TriesTempMount(hasInfo, part, mnt, attrs) then {part} else {};
    HeadFacts(hasInfo, part, attrs, mnt);
    if hasInfo && part in head.mnt {
      var usage := Usage(h, head.mnt[part]).0;
      UsageFacts(h, head.mnt[part], head.mnt);
      MountsWithinWeaken(usage, {}, s);
      SecTypeHiddenAppend(head.events, usage);
      MountsFreshAppend(head.events, usage, mnt, head.mnt, head.mnt);
      MountsWithinAppend(head.events, usage, s);
    }
  }

  /**
   * The partitions of a disk show no SEC_TYPE, and mount only named partitions that
   * may be mounted, each once and only when the mount table lacked it.
   */
  lemma {:induction false} PartsFacts(h: Host, hasInfo: bool, names: seq<string>, parts: map<string, Attrs>,
                                      mnt: map<string, string>)
    requires forall n :: n in names ==> n in parts
    ensures var r := PartsReport(h, hasInfo, names, parts, mnt);
      && SecTypeHidden(r.events)
      && MountsFresh(r.events, mnt, r.mnt)
      && MountsWithin(r.events, Mountable(hasInfo, names, parts))
    decreases |names|
  {
    if names != [] {
      var r := PartitionReport(h, hasInfo, names[0], parts[names[0]], mnt);
      PartitionFacts(h, hasInfo, names[0], parts[names[0]], mnt);
      var s := Mountable(hasInfo, names, parts);
      MountsWithinWeaken(r.events, if TriesTempMount(hasInfo, names[0], mnt, parts[names[0]]) then {names[0]} else {}, s);
      if r.failure.None? {
        var rest := PartsReport(h, hasInfo, names[1..], parts, r.mnt);
        PartsFacts(h, hasInfo, names[1..], parts, r.mnt);
        assert Mountable(hasInfo, names[1..], parts) <= s;
        MountsWithinWeaken(rest.events, Mountable(hasInfo, names[1..], parts), s);
        SecTypeHiddenAppend(r.events, rest.events);
        MountsFreshAppend(r.events, rest.events, mnt, r.mnt, rest.mnt);
        MountsWithinAppend(r.events, rest.events, s);
      }
    }
  }

  /** The partitions a disk's report may mount are among those of all disks. */
  lemma MountableOnDisk(h: Host, devs: DiskTable, dev: string)
    requires dev in devs
    ensures Mountable(h.fdiskList(dev) != [], SortedSet(devs[dev].Keys), devs[dev]) <= MountableOnDisks(h, devs)
  {
    forall p | p in Mountable(h.fdiskList(dev) != [], SortedSet(devs[dev].Keys), devs[dev])
      ensures p in MountableOnDisks(h, devs)
    {
      assert dev in devs && p in devs[dev] && h.fdiskList(dev) != [] && !IsSwap(devs[dev][p]);
    }
  }

  /** A disk's report shows no SEC_TYPE and mounts only its partitions that may be mounted, each once. */
  lemma DiskFacts(h: Host, devs: DiskTable, dev: string, mnt: map<string, string>)
    requires dev in devs
    ensures var r := DiskReport(h, dev, devs[dev], mnt);
      && SecTypeHidden(r.events)
      && MountsFresh(r.events, mnt, r.mnt)
      && MountsWithin(r.events, MountableOnDisks(h, devs))
  {
    var parts := devs[dev];
    var hasInfo := h.fdiskList(dev) != [];
    var geometry := if hasInfo then DiskGeometry(h.fdiskList(dev)) else Ok(("", ""));
    if geometry.Ok? {
      var names := SortedSet(parts.Keys);
      var rest := PartsReport(h, hasInfo, names, parts, mnt);
      var head := [Show(Disk(dev, if hasInfo then Some(geometry.value) else None))];
      assert DiskReport(h, dev, parts, mnt) == Prepend(head, rest);
      assert SecTypeHidden(head) && MountsFresh(head, mnt, mnt) && MountsWithin(head, {});
      PartsFacts(h, hasInfo, names, parts, mnt);
      MountableOnDisk(h, devs, dev);
      MountsWithinWeaken(head, {}, MountableOnDisks(h, devs));
      MountsWithinWeaken(rest.events, Mountable(hasInfo, names, parts), MountableOnDisks(h, devs));
      SecTypeHiddenAppend(head, rest.events);
      MountsFreshAppend(head, rest.events, mnt, mnt, rest.mnt);
      MountsWithinAppend(head, rest.events, MountableOnDisks(h, devs));
    } else {
      var cut := [Show(DiskCut(dev, GeometryPrinted(h.fdiskList(dev))))];
      assert DiskReport(h, dev, parts, mnt).events == cut;
      assert SecTypeHidden(cut) && MountsFresh(cut, mnt, mnt) && MountsWithin(cut, {});
    }
  }

  /**
   * Every disk's report starts with a line naming the disk: its geometry, "NO INFO." when
   * `fdisk -l` printed nothing, or, when the geometry cannot be read, the part of the
   * line printed before the IndexError, which then ends the report.
   */
  lemma DiskNamed(h: Host, dev: string, parts: map<string, Attrs>, mnt: map<string, string>)
    ensures var r, lines := DiskReport(h, dev, parts, mnt), h.fdiskList(dev);
      && r.events != [] && r.events[0].Show?
      && (r.events[0].output.Disk? || r.events[0].output.DiskCut?) && r.events[0].output.dev == dev
      && (r.events[0].output.DiskCut? <==> lines != [] && DiskGeometry(lines).Err?)
      && (r.events[0].output.DiskCut? ==> r.events == [r.events[0]] && r.failure == Some(IndexError))
      && (r.events[0].output.DiskCut? ==>
            var printed := r.events[0].output.printed;
            && (printed != [] <==> |lines| >= 2 && |Words(Strip(lines[1]))| == 3)
            && (printed != [] ==> printed == [Words(Strip(lines[1]))[2]]))
      && (r.events[0].output.Disk? ==> r.events[0].output.geometry.None? == (lines == []))
      && (r.events[0].output.Disk? && lines != [] ==>
            DiskGeometry(lines).Ok? && r.events[0].output.geometry == Some(DiskGeometry(lines).value))
  {
  }

  /** The named disks' reports show no SEC_TYPE and mount only partitions that may be mounted, each once. */
  lemma {:induction false} DisksFacts(h: Host, names: seq<string>, devs: DiskTable, mnt: map<string, string>)
    requires forall n :: n in names ==> n in devs
    ensures var r := DisksReport(h, names, devs, mnt);
      && SecTypeHidden(r.events)
      && MountsFresh(r.events, mnt, r.mnt)
      && MountsWithin(r.events, MountableOnDisks(h, devs))
    decreases |names|
  {
    if names != [] {
      var r := DiskReport(h, names[0], devs[names[0]], mnt);
      DiskFacts(h, devs, names[0], mnt);
      if r.failure.None? {
        var rest := DisksReport(h, names[1..], devs, r.mnt);
        DisksFacts(h, names[1..], devs, r.mnt);
        SecTypeHiddenAppend(r.events, rest.events);
        MountsFreshAppend(r.events, rest.events, mnt, r.mnt, rest.mnt);
        MountsWithinAppend(r.events, rest.events, MountableOnDisks(h, devs));
      }
    }
  }

  /** A partition that may be mounted lies on a disk fdisk knows and is not swap. */
  lemma MountableOnDisksMember(h: Host, devs: DiskTable, p: string)
    requires p in MountableOnDisks(h, devs)
    ensures exists dev :: dev in devs && p in devs[dev] && h.fdiskList(dev) != [] && !IsSwap(devs[dev][p])
  {
  }

  /** The whole run: the disks' reports, then (unless one raised) the unmount of TempMount. */
  lemma LayoutRun(h: Host, mnt: map<string, string>, devs: DiskTable)
    requires MountTable(h.mountLines) == Ok(mnt) && BlkidTable(h.blkidLines, h.fdiskSize) == Ok(devs)
    ensures var r := DisksReport(h, SortedSet(devs.Keys), devs, mnt);
      Layout(h).0 == r.events + (if r.failure.Some? then [] else [Command(["umount", TempMount])])
  {
  }

  /** The events of the whole run show no SEC_TYPE and mount only partitions that may be mounted, each once. */
  lemma LayoutEvents(h: Host, mnt: map<string, string>, devs: DiskTable)
    requires MountTable(h.mountLines) == Ok(mnt) && BlkidTable(h.blkidLines, h.fdiskSize) == Ok(devs)
    ensures var events, r := Layout(h).0, DisksReport(h, SortedSet(devs.Keys), devs, mnt);
      SecTypeHidden(events) && MountsFresh(events, mnt, r.mnt) && MountsWithin(events, MountableOnDisks(h, devs))
  {
    var r := DisksReport(h, SortedSet(devs.Keys), devs, mnt);
    DisksFacts(h, SortedSet(devs.Keys), devs, mnt);
    var tail := if r.failure.Some? then [] else [Command(["umount", TempMount])];
    assert SecTypeHidden(tail) && MountsFresh(tail, r.mnt, r.mnt) && MountsWithin(tail, {});
    MountsWithinWeaken(tail, {}, MountableOnDisks(h, devs));
    LayoutRun(h, mnt, devs);
    SecTypeHiddenAppend(r.events, tail);
    MountsFreshAppend(r.events, tail, mnt, r.mnt, r.mnt);
    MountsWithinAppend(r.events, tail, MountableOnDisks(h, devs));
  }

  /**
   * The whole run: no attribute line shows SEC_TYPE; every partition mounted on
   * TempMount is one `mount` did not list, lies on a disk `fdisk -l` printed lines
   * for, and is not swap; and no partition is mounted twice.
   */
  lemma LayoutFacts(h: Host)
    requires MountTable(h.mountLines).Ok? && BlkidTable(h.blkidLines, h.fdiskSize).Ok?
    ensures var events, mnt, devs := Layout(h).0, MountTable(h.mountLines).value,
                                     BlkidTable(h.blkidLines, h.fdiskSize).value;
      && SecTypeHidden(events)
      && (forall i :: 0 <= i < |events| && IsMount(events[i]) ==>
            events[i].argv[1] !in mnt
            && exists dev :: dev in devs && events[i].argv[1] in devs[dev]
                             && h.fdiskList(dev) != [] && !IsSwap(devs[dev][events[i].argv[1]]))
      && (forall i, j :: 0 <= i < j < |events| && IsMount(events[i]) && IsMount(events[j]) ==>
            events[i].argv[1] != events[j].argv[1])
  {
    var mnt := MountTable(h.mountLines).value;
    var devs := BlkidTable(h.blkidLines, h.fdiskSize).value;
    var events := Layout(h).0;
    LayoutEvents(h, mnt, devs);
    forall i | 0 <= i < |events| && IsMount(events[i])
      ensures exists dev :: dev in devs && events[i].argv[1] in devs[dev]
                            && h.fdiskList(dev) != [] && !IsSwap(devs[dev][events[i].argv[1]])
    {
      MountableOnDisksMember(h, devs, events[i].argv[1]);
    }
  }
}

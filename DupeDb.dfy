/**
 * file_keeper/attic/dupedb.py: find the mounted partition a path lies on and its
 * UUID, make sure the `device` table has exactly one row for that UUID, then walk the
 * path and add a row to the `file` table for every file of at least min_size bytes.
 * The database is a `Db` object holding the two tables as row sequences; stat and
 * the directory walk come in as values.
 */
module DupeDb {
  import opened Wrappers
  import opened Text
  import opened DriveLayout

  /** A row of the device table; the scanner never fills in size. */
  datatype DeviceRow = DeviceRow(device: int, uuid: string, mntpnt: string, partLabel: Option<string>, size: Option<string>)

  /** A row of the file table; hash is left null by the scanner. */
  datatype FileRow = FileRow(file: int, device: int, path: string, bytes: int, hash: Option<string>)

  /** One step of os.walk: a directory, and the name and st_size of each of its files. */
  datatype Dir = Dir(path: string, files: seq<(string, nat)>)

  /** The UUID of a partition and its LABEL, when it has one. */
  datatype Identity = Identity(uuid: string, partLabel: Option<string>)

  /** The walk's three counters. */
  datatype Tally = Tally(scanned: nat, large: nat, bytes: nat)

  /** A progress line, printed as files:<files> large:<large> scanned:<size>. */
  datatype Progress = Progress(files: nat, large: nat, size: string)

  /** How main ends: exit(1), an exception, or the end of the walk. */
  datatype Outcome = Exit(code: int) | Failed(error: Error) | Finished(device: int, tally: Tally)

  /** The default of --min-size. */
  const DefaultMinSize: nat := 10 * 1024 * 1024

  /** The default --min-size is ten mebibytes, which dsz shows as "10 Mb". */
  lemma DefaultMinSizeReading()
    ensures DefaultMinSize == 10 * Pow1024(2)
    ensures DszText(DefaultMinSize) == Ok("10 Mb")
  {
    assert Scale(10) == 0 && Lead(10) == 10;
    assert Scale(10240) == 1 && Lead(10240) == 10;
    assert Scale(DefaultMinSize) == 2 && Lead(DefaultMinSize) == 10;
    assert NatToString(10) == NatToString(1) + [DigitChar(0)] == "10";
    assert Units[2] == "Mb";
    assert IntToString(10) + " " + Units[2] == "10 Mb";
    assert DszText(DefaultMinSize) == Ok(IntToString(10) + " " + Units[2]);
  }

  // ---------------------------------------------------------------------------
  // Row ids

  /** The largest of a non-empty list of ids. */
  function Max(ids: seq<int>): (m: int)
    requires ids != []
    ensures m in ids && forall k :: 0 <= k < |ids| ==> ids[k] <= m
  {
    if |ids| == 1 then ids[0]
    else
      var rest := Max(ids[1..]);
      if ids[0] > rest then ids[0] else rest
  }

  /** The rowid sqlite gives a new row of an INTEGER PRIMARY KEY table: one past the largest, 1 when empty. */
  function NextId(ids: seq<int>): int {
    if ids == [] then 1 else Max(ids) + 1
  }

  /** The next rowid is above every rowid already in the table. */
  lemma NextIdFresh(ids: seq<int>)
    ensures forall k :: 0 <= k < |ids| ==> ids[k] < NextId(ids)
  {
  }

  /** No id twice (the unique indexes device_device_idx and file_file_idx). */
  predicate UniqueIds(ids: seq<int>) {
    forall i, j :: 0 <= i < j < |ids| ==> ids[i] != ids[j]
  }

  function DeviceIds(rows: seq<DeviceRow>): seq<int> {
    seq(|rows|, k requires 0 <= k < |rows| => rows[k].device)
  }

  function FileIds(rows: seq<FileRow>): seq<int> {
    seq(|rows|, k requires 0 <= k < |rows| => rows[k].file)
  }

  // ---------------------------------------------------------------------------
  // The device table: select, and insert when missing

  /** What "select device from device where uuid=:uuid" fetches, in table order. */
  function Matching(rows: seq<DeviceRow>, uuid: string): seq<int>
    decreases |rows|
  {
    if rows == [] then []
    else
      var last := rows[|rows| - 1];
      Matching(rows[..|rows| - 1], uuid) + (if last.uuid == uuid then [last.device] else [])
  }

  /** The select fetches the id of each row with the UUID, and nothing else. */
  lemma {:induction false} MatchingFacts(rows: seq<DeviceRow>, uuid: string)
    ensures |Matching(rows, uuid)| <= |rows|
    ensures Matching(rows, uuid) == [] <==> forall k :: 0 <= k < |rows| ==> rows[k].uuid != uuid
    ensures forall id :: id in Matching(rows, uuid) ==>
      exists k :: 0 <= k < |rows| && rows[k].uuid == uuid && rows[k].device == id
    ensures forall k :: 0 <= k < |rows| && rows[k].uuid == uuid ==> rows[k].device in Matching(rows, uuid)
    decreases |rows|
  {
    if rows != [] {
      var init := rows[..|rows| - 1];
      MatchingFacts(init, uuid);
      assert forall k :: 0 <= k < |init| ==> init[k] == rows[k];
    }
  }

  /** The select fetches more than one row exactly when two rows of the table have the UUID. */
  lemma {:induction false} MatchingSeveral(rows: seq<DeviceRow>, uuid: string)
    ensures |Matching(rows, uuid)| > 1 <==>
      exists i, j :: 0 <= i < j < |rows| && rows[i].uuid == uuid && rows[j].uuid == uuid
    decreases |rows|
  {
    if rows != [] {
      var init, n := rows[..|rows| - 1], |rows| - 1;
      MatchingSeveral(init, uuid);
      MatchingFacts(init, uuid);
      assert forall k :: 0 <= k < n ==> init[k] == rows[k];
      if |Matching(rows, uuid)| > 1 {
        if rows[n].uuid == uuid && |Matching(init, uuid)| == 1 {
          var i :| 0 <= i < n && init[i].uuid == uuid && init[i].device == Matching(init, uuid)[0];
          assert rows[i].uuid == uuid && rows[n].uuid == uuid;
        }
      }
      if exists i, j :: 0 <= i < j < |rows| && rows[i].uuid == uuid && rows[j].uuid == uuid {
        var i, j :| 0 <= i < j < |rows| && rows[i].uuid == uuid && rows[j].uuid == uuid;
        if j == n {
          assert init[i].device in Matching(init, uuid);
        } else {
          assert init[i].uuid == uuid && init[j].uuid == uuid;
        }
      }
    }
  }

  /** No UUID twice in the device table. */
  predicate UniqueUuids(rows: seq<DeviceRow>) {
    forall i, j :: 0 <= i < j < |rows| ==> rows[i].uuid != rows[j].uuid
  }

  /** With no UUID twice, the select fetches at most one row. */
  lemma {:induction false} MatchingUnique(rows: seq<DeviceRow>, uuid: string)
    requires UniqueUuids(rows)
    ensures |Matching(rows, uuid)| <= 1
    decreases |rows|
  {
    if rows != [] {
      var init := rows[..|rows| - 1];
      assert UniqueUuids(init);
      MatchingUnique(init, uuid);
      if rows[|rows| - 1].uuid == uuid {
        MatchingFacts(init, uuid);
      }
    }
  }

  /**
   * The device id for the partition, and the device table after main's get-or-create:
   * an exception when several rows have the UUID, the existing id when one has, and
   * otherwise a new row (uuid, mntpnt, label) and its id.
   */
  function DeviceLookup(rows: seq<DeviceRow>, id: Identity, mntpnt: string): (Result<int>, seq<DeviceRow>) {
    var found := Matching(rows, id.uuid);
    if |found| > 1 then (Err(Raised("More than one entry for UUID " + id.uuid)), rows)
    else if found == [] then
      var device := NextId(DeviceIds(rows));
      (Ok(device), rows + [DeviceRow(device, id.uuid, mntpnt, id.partLabel, None)])
    else (Ok(found[0]), rows)
  }

  /**
   * Get-or-create raises exactly when more than one row has the UUID, and then changes
   * nothing; when it succeeds, the table is unchanged or has one new row with the
   * UUID, mount point and label and a fresh id, and the id returned is that of the
   * one row with the UUID.
   */
  lemma DeviceLookupFacts(rows: seq<DeviceRow>, id: Identity, mntpnt: string)
    ensures var (r, rows') := DeviceLookup(rows, id, mntpnt);
      && (r.Err? <==> |Matching(rows, id.uuid)| > 1)
      && (r.Err? <==> exists i, j :: 0 <= i < j < |rows| && rows[i].uuid == id.uuid && rows[j].uuid == id.uuid)
      && (r.Err? ==> r.error == Raised("More than one entry for UUID " + id.uuid) && rows' == rows)
      && (r.Ok? && Matching(rows, id.uuid) != [] ==> rows' == rows)
      && (r.Ok? && Matching(rows, id.uuid) == [] ==>
            && rows' == rows + [DeviceRow(r.value, id.uuid, mntpnt, id.partLabel, None)]
            && forall k :: 0 <= k < |rows| ==> rows[k].device < r.value)
      && (r.Ok? ==> Matching(rows', id.uuid) == [r.value])
  {
    MatchingSeveral(rows, id.uuid);
    var found := Matching(rows, id.uuid);
    if found == [] {
      var (r, rows') := DeviceLookup(rows, id, mntpnt);
      NextIdFresh(DeviceIds(rows));
      forall k | 0 <= k < |rows| ensures rows[k].device < r.value {
        assert DeviceIds(rows)[k] == rows[k].device;
      }
      assert rows'[..|rows'| - 1] == rows;
    }
  }

  /** Running get-or-create again with the same UUID returns the same id and changes nothing. */
  lemma DeviceLookupIdempotent(rows: seq<DeviceRow>, id: Identity, mntpnt: string, mntpnt': string,
                               partLabel': Option<string>)
    requires DeviceLookup(rows, id, mntpnt).0.Ok?
    ensures var (r, rows') := DeviceLookup(rows, id, mntpnt);
      DeviceLookup(rows', Identity(id.uuid, partLabel'), mntpnt') == (r, rows')
  {
    DeviceLookupFacts(rows, id, mntpnt);
  }

  /**
   * Get-or-create keeps the device table free of repeated UUIDs and ids, and on such a
   * table it never raises.
   */
  lemma DeviceLookupKeeps(rows: seq<DeviceRow>, id: Identity, mntpnt: string)
    requires UniqueUuids(rows) && UniqueIds(DeviceIds(rows))
    ensures var (r, rows') := DeviceLookup(rows, id, mntpnt);
      r.Ok? && UniqueUuids(rows') && UniqueIds(DeviceIds(rows'))
  {
    MatchingUnique(rows, id.uuid);
    MatchingFacts(rows, id.uuid);
    DeviceLookupFacts(rows, id, mntpnt);
    var (r, rows') := DeviceLookup(rows, id, mntpnt);
    if rows' != rows {
      assert DeviceIds(rows') == DeviceIds(rows) + [r.value];
    }
  }

  // ---------------------------------------------------------------------------
  // The file table: one row per logged file

  /** The file table after log_file has been called for each entry in turn. */
  function Logged(rows: seq<FileRow>, entries: seq<(string, nat)>, device: int): seq<FileRow>
    decreases |entries|
  {
    if entries == [] then rows
    else
      var before := Logged(rows, entries[..|entries| - 1], device);
      var e := entries[|entries| - 1];
      before + [FileRow(NextId(FileIds(before)), device, e.0, e.1, None)]
  }

  /** The row logged for the entry e on the device: its path, its size and a null hash. */
  predicate RowIs(r: FileRow, e: (string, nat), device: int) {
    r.device == device && r.path == e.0 && r.bytes == e.1 && r.hash == None
  }

  /** From row base on, t holds the rows logged for the entries, in order. */
  predicate RowsFor(t: seq<FileRow>, base: nat, entries: seq<(string, nat)>, device: int)
    requires base + |entries| <= |t|
  {
    forall k :: 0 <= k < |entries| ==> RowIs(t[base + k], entries[k], device)
  }

  /**
   * Logging appends exactly one row per entry, in order, each with the device, the
   * path and the size and a null hash, and leaves the rows already there alone.
   */
  lemma {:induction false} LoggedRows(rows: seq<FileRow>, entries: seq<(string, nat)>, device: int)
    ensures var t := Logged(rows, entries, device);
      && |t| == |rows| + |entries|
      && t[..|rows|] == rows
      && RowsFor(t, |rows|, entries, device)
    decreases |entries|
  {
    if entries != [] {
      var init, e := entries[..|entries| - 1], entries[|entries| - 1];
      LoggedRows(rows, init, device);
      var before := Logged(rows, init, device);
      var t := Logged(rows, entries, device);
      var row := FileRow(NextId(FileIds(before)), device, e.0, e.1, None);
      assert t == before + [row];
      assert t[..|before|] == before;
      forall k | 0 <= k < |entries|
        ensures RowIs(t[|rows| + k], entries[k], device)
      {
        if k < |init| {
          assert t[|rows| + k] == before[|rows| + k] && init[k] == entries[k];
        } else {
          assert t[|rows| + k] == row;
        }
      }
      assert RowsFor(t, |rows|, entries, device);
    }
  }

  /** Logging keeps the file ids unique. */
  lemma {:induction false} LoggedIds(rows: seq<FileRow>, entries: seq<(string, nat)>, device: int)
    requires UniqueIds(FileIds(rows))
    ensures UniqueIds(FileIds(Logged(rows, entries, device)))
    decreases |entries|
  {
    if entries != [] {
      var before := Logged(rows, entries[..|entries| - 1], device);
      LoggedIds(rows, entries[..|entries| - 1], device);
      NextIdFresh(FileIds(before));
      var e := entries[|entries| - 1];
      assert FileIds(Logged(rows, entries, device)) == FileIds(before) + [NextId(FileIds(before))];
    }
  }

  /** Logging a + b is logging a, then b. */
  lemma {:induction false} LoggedAppend(rows: seq<FileRow>, a: seq<(string, nat)>, b: seq<(string, nat)>, device: int)
    ensures Logged(rows, a + b, device) == Logged(Logged(rows, a, device), b, device)
    decreases |b|
  {
    if b != [] {
      assert (a + b)[..|a + b| - 1] == a + b[..|b| - 1];
      LoggedAppend(rows, a, b[..|b| - 1], device);
    } else {
      assert a + b == a;
    }
  }

  /**
   * Nothing makes (device, path) unique: logging the same entries a second time adds
   * a second row for each of them.
   */
  lemma RescanDuplicates(rows: seq<FileRow>, entries: seq<(string, nat)>, device: int, k: nat)
    requires k < |entries|
    ensures var t := Logged(Logged(rows, entries, device), entries, device);
      exists i, j :: 0 <= i < j < |t| && t[i].device == t[j].device == device
                     && t[i].path == t[j].path == entries[k].0
  {
    var once := Logged(rows, entries, device);
    var t := Logged(once, entries, device);
    LoggedRows(rows, entries, device);
    LoggedRows(once, entries, device);
    var i, j := |rows| + k, |once| + k;
    assert t[i] == t[..|once|][i] == once[i];
  }

  // ---------------------------------------------------------------------------
  // The walk

  /** The files of one directory: os.path.join(path, filename) and st_size. */
  function DirEntries(d: Dir): seq<(string, nat)> {
    seq(|d.files|, k requires 0 <= k < |d.files| => (PathJoin(d.path, d.files[k].0), d.files[k].1))
  }

  /** The files of the walk, directory by directory. */
  function Entries(walk: seq<Dir>): seq<(string, nat)>
    decreases |walk|
  {
    if walk == [] then [] else Entries(walk[..|walk| - 1]) + DirEntries(walk[|walk| - 1])
  }

  /** The entries of at least minSize bytes, in order. */
  function LargeOf(entries: seq<(string, nat)>, minSize: int): seq<(string, nat)>
    decreases |entries|
  {
    if entries == [] then []
    else
      var e := entries[|entries| - 1];
      LargeOf(entries[..|entries| - 1], minSize) + (if e.1 >= minSize then [e] else [])
  }

  /** The sum of the sizes. */
  function Sum(entries: seq<(string, nat)>): nat
    decreases |entries|
  {
    if entries == [] then 0 else Sum(entries[..|entries| - 1]) + entries[|entries| - 1].1
  }

  /** The counters after one more file. */
  function Count(t: Tally, e: (string, nat), minSize: int): Tally {
    Tally(t.scanned + 1, if e.1 >= minSize then t.large + 1 else t.large, t.bytes + e.1)
  }

  /** The counters after each entry in turn. */
  function Tallied(t: Tally, entries: seq<(string, nat)>, minSize: int): Tally
    decreases |entries|
  {
    if entries == [] then t else Count(Tallied(t, entries[..|entries| - 1], minSize), entries[|entries| - 1], minSize)
  }

  /** The filter keeps exactly the entries of at least minSize bytes. */
  lemma {:induction false} LargeOfMembers(entries: seq<(string, nat)>, minSize: int)
    ensures |LargeOf(entries, minSize)| <= |entries|
    ensures forall e :: e in LargeOf(entries, minSize) <==> e in entries && e.1 >= minSize
    decreases |entries|
  {
    if entries != [] {
      var init := entries[..|entries| - 1];
      assert entries == init + [entries[|entries| - 1]];
      LargeOfMembers(init, minSize);
    }
  }

  /**
   * After the walk scanned counts the files, large those of at least minSize bytes,
   * and bytes adds up their sizes.
   */
  lemma {:induction false} TalliedFacts(t: Tally, entries: seq<(string, nat)>, minSize: int)
    ensures Tallied(t, entries, minSize)
      == Tally(t.scanned + |entries|, t.large + |LargeOf(entries, minSize)|, t.bytes + Sum(entries))
    decreases |entries|
  {
    if entries != [] {
      TalliedFacts(t, entries[..|entries| - 1], minSize);
    }
  }

  lemma {:induction false} TalliedAppend(t: Tally, a: seq<(string, nat)>, b: seq<(string, nat)>, minSize: int)
    ensures Tallied(t, a + b, minSize) == Tallied(Tallied(t, a, minSize), b, minSize)
    decreases |b|
  {
    if b != [] {
      assert (a + b)[..|a + b| - 1] == a + b[..|b| - 1];
      TalliedAppend(t, a, b[..|b| - 1], minSize);
    } else {
      assert a + b == a;
    }
  }

  lemma {:induction false} LargeOfAppend(a: seq<(string, nat)>, b: seq<(string, nat)>, minSize: int)
    ensures LargeOf(a + b, minSize) == LargeOf(a, minSize) + LargeOf(b, minSize)
    decreases |b|
  {
    if b != [] {
      assert (a + b)[..|a + b| - 1] == a + b[..|b| - 1];
      LargeOfAppend(a, b[..|b| - 1], minSize);
    } else {
      assert a + b == a;
    }
  }

  /** One more file: the counters count it, and it is logged when it is large. */
  lemma EntryStep(entries: seq<(string, nat)>, j: nat, t0: Tally, rows: seq<FileRow>, device: int, minSize: int)
    requires j < |entries|
    ensures Tallied(t0, entries[..j + 1], minSize) == Count(Tallied(t0, entries[..j], minSize), entries[j], minSize)
    ensures var before := Logged(rows, LargeOf(entries[..j], minSize), device);
      Logged(rows, LargeOf(entries[..j + 1], minSize), device)
        == if entries[j].1 >= minSize
           then before + [FileRow(NextId(FileIds(before)), device, entries[j].0, entries[j].1, None)]
           else before
  {
    assert entries[..j + 1][..j] == entries[..j];
    var large, small := LargeOf(entries[..j + 1], minSize), LargeOf(entries[..j], minSize);
    if entries[j].1 >= minSize {
      assert large == small + [entries[j]];
      assert large[..|large| - 1] == small && large[|large| - 1] == entries[j];
    } else {
      assert large == small;
    }
  }

  /** The counters at the top of each directory where a progress line is printed. */
  function Shown(walk: seq<Dir>, minSize: int): seq<Tally>
    decreases |walk|
  {
    if walk == [] then []
    else
      var init := walk[..|walk| - 1];
      var t := Tallied(Tally(0, 0, 0), Entries(init), minSize);
      Shown(init, minSize) + (if t.scanned % 1000 != 0 then [t] else [])
  }

  /**
   * A progress line shows the counters at the top of a directory, and only when the
   * number of files so far is not a multiple of 1000; so never for the first directory.
   */
  lemma {:induction false} ShownFacts(walk: seq<Dir>, minSize: int)
    ensures |Shown(walk, minSize)| <= |walk|
    ensures forall k :: 0 <= k < |Shown(walk, minSize)| ==> Shown(walk, minSize)[k].scanned % 1000 != 0
    ensures |walk| <= 1 ==> Shown(walk, minSize) == []
    decreases |walk|
  {
    if walk != [] {
      var init := walk[..|walk| - 1];
      ShownFacts(init, minSize);
      if |walk| == 1 {
        assert init == [];
      }
    }
  }

  /** The lines printed are the ones for these counters, with bytes as dsz shows them. */
  predicate Shows(progress: seq<Progress>, shown: seq<Tally>) {
    && |progress| == |shown|
    && forall k :: 0 <= k < |progress| ==>
         progress[k].files == shown[k].scanned && progress[k].large == shown[k].large
         && DszText(shown[k].bytes) == Ok(progress[k].size)
  }

  lemma ShowsAppend(progress: seq<Progress>, shown: seq<Tally>, p: seq<Progress>, s: seq<Tally>)
    requires Shows(progress, shown) && Shows(p, s)
    ensures Shows(progress + p, shown + s)
  {
  }

  /** One more directory of the walk. */
  lemma WalkStep(walk: seq<Dir>, i: nat, minSize: int)
    requires i < |walk|
    ensures Entries(walk[..i + 1]) == Entries(walk[..i]) + DirEntries(walk[i])
    ensures var t := Tallied(Tally(0, 0, 0), Entries(walk[..i]), minSize);
      Shown(walk[..i + 1], minSize) == Shown(walk[..i], minSize) + (if t.scanned % 1000 != 0 then [t] else [])
  {
    assert walk[..i + 1][..i] == walk[..i];
  }

  // ---------------------------------------------------------------------------
  // The two lookups in main

  /** The first partition, in the given order of mntpnts' keys, mounted on the device pathDev. */
  function FirstMount(mntpnts: map<string, string>, order: seq<string>, stDev: string -> int, pathDev: int)
    : Option<(string, string)>
    requires forall p :: p in order ==> p in mntpnts
    decreases |order|
  {
    if order == [] then None
    else if stDev(mntpnts[order[0]]) == pathDev then Some((order[0], mntpnts[order[0]]))
    else FirstMount(mntpnts, order[1..], stDev, pathDev)
  }

  /**
   * With order visiting every key, the search finds nothing exactly when no mount point
   * is on pathDev; otherwise it finds the first partition in that order whose mount
   * point is.
   */
  lemma {:induction false} FirstMountFacts(mntpnts: map<string, string>, order: seq<string>, stDev: string -> int,
                                           pathDev: int)
    requires forall p :: p in order <==> p in mntpnts
    ensures var r := FirstMount(mntpnts, order, stDev, pathDev);
      && (r.None? <==> forall p :: p in mntpnts ==> stDev(mntpnts[p]) != pathDev)
      && (r.Some? ==> exists k :: 0 <= k < |order| && r.value == (order[k], mntpnts[order[k]])
                         && stDev(r.value.1) == pathDev
                         && forall j :: 0 <= j < k ==> stDev(mntpnts[order[j]]) != pathDev)
  {
    FirstMountIn(mntpnts, order, stDev, pathDev);
  }

  lemma {:induction false} FirstMountIn(mntpnts: map<string, string>, order: seq<string>, stDev: string -> int,
                                        pathDev: int)
    requires forall p :: p in order ==> p in mntpnts
    ensures var r := FirstMount(mntpnts, order, stDev, pathDev);
      && (r.None? <==> forall k :: 0 <= k < |order| ==> stDev(mntpnts[order[k]]) != pathDev)
      && (r.Some? ==> exists k :: 0 <= k < |order| && r.value == (order[k], mntpnts[order[k]])
                         && stDev(r.value.1) == pathDev
                         && forall j :: 0 <= j < k ==> stDev(mntpnts[order[j]]) != pathDev)
    decreases |order|
  {
    if order != [] && stDev(mntpnts[order[0]]) != pathDev {
      var rest := order[1..];
      assert forall p :: p in rest ==> p in order;
      FirstMountIn(mntpnts, rest, stDev, pathDev);
      assert forall k :: 0 < k < |order| ==> order[k] == rest[k - 1];
      if FirstMount(mntpnts, rest, stDev, pathDev).Some? {
        var k :| 0 <= k < |rest| && FirstMount(mntpnts, rest, stDev, pathDev).value == (rest[k], mntpnts[rest[k]])
                 && stDev(mntpnts[rest[k]]) == pathDev
                 && forall j :: 0 <= j < k ==> stDev(mntpnts[rest[j]]) != pathDev;
        assert order[k + 1] == rest[k];
      }
    }
  }

  /** The for/else search over mntpnts.items(). */
  method FindMount(mntpnts: map<string, string>, order: seq<string>, stDev: string -> int, pathDev: int)
    returns (r: Option<(string, string)>)
    requires forall p :: p in order ==> p in mntpnts
    ensures r == FirstMount(mntpnts, order, stDev, pathDev)
  {
    for i := 0 to |order|
      invariant FirstMount(mntpnts, order, stDev, pathDev) == FirstMount(mntpnts, order[i..], stDev, pathDev)
    {
      assert order[i..][1..] == order[i + 1..];
      var partition := order[i];
      var mntpnt := mntpnts[partition];
      if stDev(mntpnt) == pathDev {
        return Some((partition, mntpnt));
      }
    }
    r := None;
  }

  /** partitions[partition]['UUID'] and .get('LABEL'): the identity, or the KeyError without a UUID. */
  function UuidOf(attrs: Attrs): Result<Option<Identity>> {
    if "UUID" in attrs then Ok(Some(Identity(attrs["UUID"], if "LABEL" in attrs then Some(attrs["LABEL"]) else None)))
    else Err(KeyError)
  }

  /**
   * The UUID and label of the partition on the first disk, in the given order of devs'
   * keys, that has it: none when no disk has it, a KeyError when that record has no UUID.
   */
  function FirstUuid(devs: DiskTable, order: seq<string>, partition: string): Result<Option<Identity>>
    requires forall d :: d in order ==> d in devs
    decreases |order|
  {
    if order == [] then Ok(None)
    else
      var partitions := devs[order[0]];
      if partition in partitions then UuidOf(partitions[partition])
      else FirstUuid(devs, order[1..], partition)
  }

  /**
   * With order visiting every disk, the search finds nothing exactly when no disk has the
   * partition; otherwise the first disk in that order with it decides: its UUID and
   * LABEL (if any), or a KeyError without a UUID.
   */
  lemma {:induction false} FirstUuidFacts(devs: DiskTable, order: seq<string>, partition: string)
    requires forall d :: d in order <==> d in devs
    ensures var r := FirstUuid(devs, order, partition);
      && (r == Ok(None) <==> forall d :: d in devs ==> partition !in devs[d])
      && (r != Ok(None) ==>
            exists k :: 0 <= k < |order| && partition in devs[order[k]]
                        && (forall j :: 0 <= j < k ==> partition !in devs[order[j]])
                        && r == UuidOf(devs[order[k]][partition]))
  {
    FirstUuidIn(devs, order, partition);
  }

  lemma {:induction false} FirstUuidIn(devs: DiskTable, order: seq<string>, partition: string)
    requires forall d :: d in order ==> d in devs
    ensures var r := FirstUuid(devs, order, partition);
      && (r == Ok(None) <==> forall k :: 0 <= k < |order| ==> partition !in devs[order[k]])
      && (r != Ok(None) ==>
            exists k :: 0 <= k < |order| && partition in devs[order[k]]
                        && (forall j :: 0 <= j < k ==> partition !in devs[order[j]])
                        && r == UuidOf(devs[order[k]][partition]))
    decreases |order|
  {
    if order != [] && partition !in devs[order[0]] {
      var rest := order[1..];
      assert forall d :: d in rest ==> d in order;
      FirstUuidIn(devs, rest, partition);
      assert forall k :: 0 < k < |order| ==> order[k] == rest[k - 1];
      if FirstUuid(devs, rest, partition) != Ok(None) {
        var k :| 0 <= k < |rest| && partition in devs[rest[k]]
                 && (forall j :: 0 <= j < k ==> partition !in devs[rest[j]])
                 && FirstUuid(devs, rest, partition) == UuidOf(devs[rest[k]][partition]);
        assert order[k + 1] == rest[k];
      }
    }
  }

  /** The for/else search over devs.items(). */
  method FindUuid(devs: DiskTable, order: seq<string>, partition: string) returns (r: Result<Option<Identity>>)
    requires forall d :: d in order ==> d in devs
    ensures r == FirstUuid(devs, order, partition)
  {
    for i := 0 to |order|
      invariant FirstUuid(devs, order, partition) == FirstUuid(devs, order[i..], partition)
    {
      assert order[i..][1..] == order[i + 1..];
      var partitions := devs[order[i]];
      if partition in partitions {
        if "UUID" !in partitions[partition] {
          return Err(KeyError);
        }
        var uuid := partitions[partition]["UUID"];
        var partLabel := if "LABEL" in partitions[partition] then Some(partitions[partition]["LABEL"]) else None;
        return Ok(Some(Identity(uuid, partLabel)));
      }
    }
    r := Ok(None);
  }

  /** The partition main scans, and its identity: none for exit(1), or the KeyError. */
  function Target(devs: DiskTable, devOrder: seq<string>, mntpnts: map<string, string>, mntOrder: seq<string>,
                  stDev: string -> int, pathDev: int): Result<Option<(string, Identity)>>
    requires forall d :: d in devOrder ==> d in devs
    requires forall p :: p in mntOrder ==> p in mntpnts
  {
    match FirstMount(mntpnts, mntOrder, stDev, pathDev)
    case None => Ok(None)
    case Some((partition, mntpnt)) =>
      match FirstUuid(devs, devOrder, partition)
      case Err(e) => Err(e)
      case Ok(None) => Ok(None)
      case Ok(Some(id)) => Ok(Some((mntpnt, id)))
  }

  // ---------------------------------------------------------------------------
  // The database and main

  /** The two tables of dupedb.sqlite3. */
  class Db {
    var devices: seq<DeviceRow>
    var files: seq<FileRow>

    constructor (devices: seq<DeviceRow>, files: seq<FileRow>)
      ensures this.devices == devices && this.files == files
    {
      this.devices := devices;
      this.files := files;
    }

    /** log_file: insert (device, path, bytes) into the file table. */
    method LogFile(path: string, size: nat, device: int)
      modifies this
      ensures files == old(files) + [FileRow(NextId(FileIds(old(files))), device, path, size, None)]
      ensures devices == old(devices)
    {
      files := files + [FileRow(NextId(FileIds(files)), device, path, size, None)];
    }

    /** main's select, insert when nothing was found and select again, then res[0][0]. */
    method DeviceFor(id: Identity, mntpnt: string) returns (r: Result<int>)
      modifies this
      ensures (r, devices) == DeviceLookup(old(devices), id, mntpnt)
      ensures files == old(files)
    {
      var res := Matching(devices, id.uuid);
      if |res| > 1 {
        return Err(Raised("More than one entry for UUID " + id.uuid));
      }
      if res == [] {
        var row := DeviceRow(NextId(DeviceIds(devices)), id.uuid, mntpnt, id.partLabel, None);
        devices := devices + [row];
        assert devices[..|devices| - 1] == old(devices);
        res := Matching(devices, id.uuid);
      }
      r := Ok(res[0]);
    }

    /** The inner loop of the walk: the files of one directory. */
    method ScanDir(dir: Dir, device: int, minSize: int, t0: Tally) returns (t: Tally)
      modifies this
      ensures t == Tallied(t0, DirEntries(dir), minSize)
      ensures files == Logged(old(files), LargeOf(DirEntries(dir), minSize), device)
      ensures devices == old(devices)
    {
      ghost var entries := DirEntries(dir);
      t := t0;
      for j := 0 to |dir.files|
        invariant t == Tallied(t0, entries[..j], minSize)
        invariant files == Logged(old(files), LargeOf(entries[..j], minSize), device)
        invariant devices == old(devices)
      {
        EntryStep(entries, j, t0, old(files), device, minSize);
        assert entries[j] == (PathJoin(dir.path, dir.files[j].0), dir.files[j].1);
        t := ScanFile(PathJoin(dir.path, dir.files[j].0), dir.files[j].1, device, minSize, t);
      }
      assert entries[..|dir.files|] == entries;
    }

    /** The body of the walk's inner loop: count one file, and log it when it is large. */
    method ScanFile(filePath: string, size: nat, device: int, minSize: int, t0: Tally) returns (t: Tally)
      modifies this
      ensures t == Count(t0, (filePath, size), minSize)
      ensures files == if size >= minSize then old(files) + [FileRow(NextId(FileIds(old(files))), device, filePath, size, None)]
                       else old(files)
      ensures devices == old(devices)
    {
      t := t0.(bytes := t0.bytes + size, scanned := t0.scanned + 1);
      if size >= minSize {
        t := t.(large := t.large + 1);
        LogFile(filePath, size, device);
      }
    }

    /**
     * The walk: the counters and the new file rows after the first `done` directories,
     * and a progress line at the top of each of them whose file count is not a
     * multiple of 1000. It stops early only when dsz cannot show the byte count.
     */
    method Scan(walk: seq<Dir>, device: int, minSize: int)
      returns (t: Tally, progress: seq<Progress>, done: nat, failure: Option<Error>)
      modifies this
      ensures done <= |walk| && (failure.None? <==> done == |walk|)
      ensures failure.Some? ==> t.scanned % 1000 != 0 && DszText(t.bytes) == Err(failure.value)
      ensures t == Tallied(Tally(0, 0, 0), Entries(walk[..done]), minSize)
      ensures files == Logged(old(files), LargeOf(Entries(walk[..done]), minSize), device)
      ensures devices == old(devices)
      ensures Shows(progress, Shown(walk[..done], minSize))
    {
      t, progress, done, failure := Tally(0, 0, 0), [], 0, None;
      while done < |walk|
        invariant done <= |walk|
        invariant t == Tallied(Tally(0, 0, 0), Entries(walk[..done]), minSize)
        invariant files == Logged(old(files), LargeOf(Entries(walk[..done]), minSize), device)
        invariant devices == old(devices)
        invariant Shows(progress, Shown(walk[..done], minSize))
      {
        WalkStep(walk, done, minSize);
        if t.scanned % 1000 != 0 {
          var size := Dsz(t.bytes);
          if size.Err? {
            failure := Some(size.error);
            return;
          }
          ShowsAppend(progress, Shown(walk[..done], minSize), [Progress(t.scanned, t.large, size.value)], [t]);
          progress := progress + [Progress(t.scanned, t.large, size.value)];
        }
        ghost var before := Entries(walk[..done]);
        TalliedAppend(Tally(0, 0, 0), before, DirEntries(walk[done]), minSize);
        LargeOfAppend(before, DirEntries(walk[done]), minSize);
        LoggedAppend(old(files), LargeOf(before, minSize), LargeOf(DirEntries(walk[done]), minSize), device);
        t := ScanDir(walk[done], device, minSize, t);
        done := done + 1;
      }
    }
  }

  /**
   * main after argument parsing: find the partition and its UUID (exit(1) when either
   * is missing), get or create its device row, then walk the path.
   */
  method Run(db: Db, devs: DiskTable, devOrder: seq<string>, mntpnts: map<string, string>, mntOrder: seq<string>,
             stDev: string -> int, scanPath: string, walk: seq<Dir>, minSize: int)
    returns (outcome: Outcome, progress: seq<Progress>)
    requires forall d :: d in devOrder ==> d in devs
    requires forall p :: p in mntOrder ==> p in mntpnts
    modifies db
    ensures var target := Target(devs, devOrder, mntpnts, mntOrder, stDev, stDev(scanPath));
      && (target == Ok(None) <==> outcome == Exit(1))
      && (target.Err? ==> outcome == Failed(target.error))
      && (target.Err? || target == Ok(None) ==> db.devices == old(db.devices) && db.files == old(db.files))
      && (target.Ok? && target.value.Some? ==>
            var (mntpnt, id) := target.value.value;
            var (r, rows) := DeviceLookup(old(db.devices), id, mntpnt);
            && db.devices == rows
            && (r.Err? ==> outcome == Failed(r.error) && db.files == old(db.files))
            && (r.Ok? ==> outcome.Finished? || outcome == Failed(IndexError))
            && (outcome.Finished? ==>
                  && outcome.device == r.value
                  && outcome.tally == Tallied(Tally(0, 0, 0), Entries(walk), minSize)
                  && db.files == Logged(old(db.files), LargeOf(Entries(walk), minSize), r.value)
                  && Shows(progress, Shown(walk, minSize))))
  {
    progress := [];
    var pathDev := stDev(scanPath);
    var mount := FindMount(mntpnts, mntOrder, stDev, pathDev);
    if mount.None? {
      return Exit(1), progress;
    }
    var (partition, mntpnt) := mount.value;
    var found := FindUuid(devs, devOrder, partition);
    if found.Err? {
      return Failed(found.error), progress;
    }
    if found.value.None? {
      return Exit(1), progress;
    }
    var r := db.DeviceFor(found.value.value, mntpnt);
    if r.Err? {
      return Failed(r.error), progress;
    }
    var t, done, failure;
    t, progress, done, failure := db.Scan(walk, r.value, minSize);
    if failure.Some? {
      DszDefined(t.bytes);
      return Failed(failure.value), progress;
    }
    assert walk[..done] == walk;
    outcome := Finished(r.value, t);
  }
}

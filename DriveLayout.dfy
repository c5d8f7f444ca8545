/**
 * drivelayout.py: list the disks and partitions of the machine from the output of
 * `mount`, `blkid`, `fdisk -s` and `fdisk -l`, with the free space and top-level files
 * of each mounted partition. The commands and system calls are not run here: their
 * outputs are the fields of a `Host` value given to the model.
 */
module DriveLayout {
  import opened Wrappers
  import opened Text
  import opened Order
  import opened Dicts

  /** The attributes of one partition (blkid's KEY=value items and SIZE). */
  type Attrs = map<string, string>

  /** devs in the script: disk name -> partition name -> attributes. */
  type DiskTable = map<string, map<string, Attrs>>

  // ---------------------------------------------------------------------------
  // dsz: a byte count in the largest unit that keeps the number at least 1

  const Units: seq<string> := ["b", "k", "Mb", "Gb", "Tb", "Pb"]

  function Pow1024(n: nat): (p: nat)
    ensures p >= 1
  {
    if n == 0 then 1 else 1024 * Pow1024(n - 1)
  }

  lemma {:induction false} Pow1024Monotone(m: nat, n: nat)
    requires m <= n
    ensures Pow1024(m) <= Pow1024(n)
  {
    if m < n {
      Pow1024Monotone(m, n - 1);
    }
  }

  /** Floor division by 1024 brackets x between multiples of 1024 of the quotient's bounds. */
  lemma ScaleUp(x: int, lo: int, hi: int)
    requires lo <= x / 1024 < hi
    ensures 1024 * lo <= x < 1024 * hi
  {
    assert x == 1024 * (x / 1024) + x % 1024;
  }

  /** How many times dsz's loop divides by 1024: none below 1024, at least once from 1024 on. */
  function Scale(x: int): (u: nat)
    ensures x < 1024 <==> u == 0
    decreases x
  {
    if x < 1024 then 0 else 1 + Scale(x / 1024)
  }

  /** From 1024 on, Scale(x) is the largest u with 1024^u <= x. */
  lemma {:induction false} ScaleBounds(x: int)
    requires x >= 1024
    ensures Pow1024(Scale(x)) <= x < Pow1024(Scale(x) + 1)
    decreases x
  {
    var v := Scale(x / 1024);
    if x / 1024 < 1024 {
      ScaleUp(x, 1, 1024);
    } else {
      ScaleBounds(x / 1024);
      ScaleUp(x, Pow1024(v), Pow1024(v + 1));
    }
  }

  /** The number dsz prints: x divided by 1024 as often as its loop runs. */
  function Lead(x: int): (n: int)
    ensures x < 1024 ==> n == x
    ensures x >= 1024 ==> 1 <= n < 1024
    decreases x
  {
    if x < 1024 then x else Lead(x / 1024)
  }

  /** Multiplied by 1024^Scale(x), Lead(x) brackets x: it is the floor of x / 1024^Scale(x). */
  lemma {:induction false} LeadBounds(x: int)
    requires x >= 0
    ensures Pow1024(Scale(x)) * Lead(x) <= x < Pow1024(Scale(x)) * (Lead(x) + 1)
    decreases x
  {
    if x >= 1024 {
      LeadBounds(x / 1024);
      LeadStep(x, Pow1024(Scale(x / 1024)), Lead(x));
    }
  }

  lemma LeadStep(x: int, p: int, n: int)
    requires p * n <= x / 1024 < p * (n + 1)
    ensures (1024 * p) * n <= x < (1024 * p) * (n + 1)
  {
    ScaleUp(x, p * n, p * (n + 1));
    assert 1024 * (p * n) == (1024 * p) * n;
    assert 1024 * (p * (n + 1)) == (1024 * p) * (n + 1);
  }

  /** What dsz(x) returns, or the IndexError it raises once the unit index passes "Pb". */
  function DszText(x: int): Result<string> {
    var u := Scale(x);
    if u < |Units| then Ok(IntToString(Lead(x)) + " " + Units[u]) else Err(IndexError)
  }

  /** dsz succeeds exactly below 1024^6 bytes. */
  lemma DszDefined(x: int)
    ensures DszText(x).Ok? <==> x < Pow1024(6)
  {
    var u := Scale(x);
    if x >= 1024 {
      ScaleBounds(x);
      if u < 6 {
        Pow1024Monotone(u + 1, 6);
      } else {
        Pow1024Monotone(6, u);
      }
    }
  }

  /**
   * For 0 <= x < 1024^6, dsz prints n and the u-th unit, where u is 0 below 1024 and
   * otherwise the largest u with 1024^u <= x, and n is the floor of x / 1024^u:
   * a number below 1024, and at least 1 whenever a unit above bytes is used.
   */
  lemma DszReading(x: int)
    requires 0 <= x < Pow1024(6)
    ensures var u, n := Scale(x), Lead(x);
      && u < 6
      && (u == 0 <==> x < 1024)
      && (u > 0 ==> Pow1024(u) <= x < Pow1024(u + 1))
      && Pow1024(u) * n <= x < Pow1024(u) * (n + 1)
      && n == x / Pow1024(u)
      && 0 <= n < 1024 && (u > 0 ==> n >= 1)
      && DszText(x) == Ok(IntToString(n) + " " + Units[u])
  {
    DszDefined(x);
    if x >= 1024 {
      ScaleBounds(x);
    }
    LeadBounds(x);
    FloorDivision(x, Pow1024(Scale(x)), Lead(x));
  }

  /** A quotient bracketed by multiples of the divisor is the floor quotient. */
  lemma FloorDivision(x: int, p: int, n: int)
    requires p > 0 && p * n <= x < p * (n + 1)
    ensures x / p == n
  {
    var q, r := x / p, x % p;
    assert x == p * q + r && 0 <= r < p;
    assert p * (q + 1) == p * q + p;
    MulCancelLess(p, n, q + 1);
    MulCancelLess(p, q, n + 1);
  }

  /** A positive factor can be cancelled from a strict inequality between products. */
  lemma MulCancelLess(p: int, a: int, b: int)
    requires p > 0 && p * a < p * b
    ensures a < b
  {
    assert p * b - p * a == p * (b - a);
  }

  /** dsz(x): divide by 1024 while x >= 1024, counting the divisions. */
  method Dsz(x: int) returns (r: Result<string>)
    ensures r == DszText(x)
  {
    var y := x;
    var u: nat := 0;
    while y >= 1024
      invariant Scale(x) == u + Scale(y)
      invariant Lead(x) == Lead(y)
      decreases y
    {
      y := y / 1024;
      u := u + 1;
    }
    if u < |Units| {
      r := Ok(IntToString(y) + " " + Units[u]);
    } else {
      r := Err(IndexError);
    }
  }

  // ---------------------------------------------------------------------------
  // `mount`: partition -> mount point

  /** A line of `mount` ("DEVICE on DIR type ..."): its first word and its third. */
  function MountEntry(line: string): Result<(string, string)> {
    var w := Words(Strip(line));
    if |w| >= 3 then Ok((w[0], w[2])) else Err(IndexError)
  }

  /** The mntpnt dict built from the lines of `mount`, or the IndexError of a short line. */
  function MountTable(lines: seq<string>): Result<map<string, string>> {
    match ReadPairs(lines, MountEntry)
    case Err(e) => Err(e)
    case Ok(ps) => Ok(FromPairs(ps))
  }

  /** Reading `mount` fails, with an IndexError, exactly when some line has fewer than three words. */
  lemma MountTableFails(lines: seq<string>)
    ensures MountTable(lines).Err? <==> exists j :: 0 <= j < |lines| && |Words(Strip(lines[j]))| < 3
    ensures MountTable(lines).Err? ==> MountTable(lines).error == IndexError
  {
    var r := ReadPairs(lines, MountEntry);
    assert r.Err? ==> exists j :: 0 <= j < |lines| && MountEntry(lines[j]) == Err(r.error);
  }

  /**
   * Each device named first on a line of `mount` is in the table, bound to the third
   * word of the last line that names it.
   */
  lemma MountTableLookup(lines: seq<string>, i: nat)
    requires i < |lines| && MountTable(lines).Ok?
    ensures var m, w := MountTable(lines).value, Words(Strip(lines[i]));
      && w[0] in m
      && ((forall j :: i < j < |lines| ==> Words(Strip(lines[j]))[0] != w[0]) ==> m[w[0]] == w[2])
  {
    ReadElement(lines, MountEntry, i);
    forall j | 0 <= j < |lines| ensures MountEntry(lines[j]).value.0 == Words(Strip(lines[j]))[0] {
      assert MountEntry(lines[j]).Ok?;
    }
  }

  /** The loop of main that fills mntpnt from the lines of `mount`. */
  method ParseMounts(lines: seq<string>) returns (r: Result<map<string, string>>)
    ensures r == MountTable(lines)
  {
    var mntpnt := map[];
    ghost var ps: seq<(string, string)> := [];
    for i := 0 to |lines|
      invariant ReadPairs(lines[..i], MountEntry) == Ok(ps)
      invariant mntpnt == FromPairs(ps)
    {
      var entry := MountEntry(lines[i]);
      if entry.Err? {
        ReadPairsFirstError(lines, MountEntry, i);
        return Err(entry.error);
      }
      var (dev, dir) := entry.value;
      ReadPairsStep(lines, MountEntry, i, ps);
      mntpnt := mntpnt[dev := dir];
      ps := ps + [(dev, dir)];
    }
    assert lines[..|lines|] == lines;
    return Ok(mntpnt);
  }

  // ---------------------------------------------------------------------------
  // `blkid`: disk -> partition -> attributes, with the SIZE from `fdisk -s`

  const Quote: set<char> := {'"'}

  /** One item of a blkid line, KEY="value": exactly one '=', quotes stripped from the value. */
  function ItemEntry(item: string): Result<(string, string)> {
    var kv := Split(item, "=");
    if |kv| == 2 then Ok((kv[0], StripChars(kv[1], Quote))) else Err(ValueError)
  }

  /** The attributes read from the part of a blkid line after ": ". */
  function AttrTable(info: string): Result<Attrs> {
    match ReadPairs(Words(info), ItemEntry)
    case Err(e) => Err(e)
    case Ok(ps) => Ok(FromPairs(ps))
  }

  /** Reading the items of a blkid line fails, with a ValueError, exactly when some item does not split on '=' into two parts. */
  lemma AttrTableFails(info: string)
    ensures var items := Words(info);
      && (AttrTable(info).Ok? <==> forall j :: 0 <= j < |items| ==> |Split(items[j], "=")| == 2)
      && (AttrTable(info).Err? ==> AttrTable(info).error == ValueError)
  {
    var items := Words(info);
    var r := ReadPairs(items, ItemEntry);
    assert r.Err? ==> exists j :: 0 <= j < |items| && ItemEntry(items[j]) == Err(r.error);
  }

  /**
   * Every key read from the items of a blkid line is present, bound to the value of
   * its last item with the surrounding double quotes removed.
   */
  lemma AttrTableLookup(info: string, i: nat)
    requires i < |Words(info)| && AttrTable(info).Ok?
    ensures var kv := Split(Words(info)[i], "=");
      && kv[0] in AttrTable(info).value
      && ((forall j :: i < j < |Words(info)| ==> Split(Words(info)[j], "=")[0] != kv[0]) ==>
            AttrTable(info).value[kv[0]] == StripChars(kv[1], Quote))
  {
    var items := Words(info);
    ReadElement(items, ItemEntry, i);
    forall j | 0 <= j < |items| ensures ItemEntry(items[j]).value.0 == Split(items[j], "=")[0] {
      assert ItemEntry(items[j]).Ok?;
    }
  }

  /** The inner loop of main over the items of one blkid line. */
  method ParseInfo(info: string) returns (r: Result<Attrs>)
    ensures r == AttrTable(info)
  {
    var items := Words(info);
    var attrs := map[];
    ghost var ps: seq<(string, string)> := [];
    for i := 0 to |items|
      invariant ReadPairs(items[..i], ItemEntry) == Ok(ps)
      invariant attrs == FromPairs(ps)
    {
      var item := ItemEntry(items[i]);
      if item.Err? {
        ReadPairsFirstError(items, ItemEntry, i);
        return Err(item.error);
      }
      var (ikey, val) := item.value;
      ReadPairsStep(items, ItemEntry, i, ps);
      attrs := attrs[ikey := val];
      ps := ps + [(ikey, val)];
    }
    assert items[..|items|] == items;
    return Ok(attrs);
  }

  /** The size text for a partition size in MiB: whole GiB from 1024 MiB on, else whole MiB. */
  function SizeLabel(mib: int): string {
    if mib > 1023 then IntToString(mib / 1024) + "G" else IntToString(mib) + "M"
  }

  /**
   * The SIZE attribute from the output of `fdisk -s PART` (a count of 1 KiB blocks):
   * "0M" when the output is blank, a ValueError when it is not a number.
   */
  function SizeText(out: string): (r: Result<string>)
    ensures Strip(out) == [] ==> r == Ok("0M")
    ensures Strip(out) != [] ==> (r.Ok? <==> ParseInt(Strip(out)).Some?)
    ensures Strip(out) != [] && ParseInt(Strip(out)).None? ==> r == Err(ValueError)
    ensures Strip(out) != [] && ParseInt(Strip(out)).Some? ==> r == Ok(SizeLabel(ParseInt(Strip(out)).value / 1024))
  {
    var txt := Strip(out);
    if txt == [] then
      assert DigitChar(0) == '0';
      assert NatToString(0) == "0";
      assert SizeLabel(0) == "0" + "M" == "0M";
      Ok(SizeLabel(0))
    else
      match ParseInt(txt)
      case None => Err(ValueError)
      case Some(n) => Ok(SizeLabel(n / 1024))
  }

  /**
   * Reading a size label back: for a size of kib 1 KiB blocks, the label is a number q
   * and a unit; with "M", q < 1024 is the whole MiB in kib, and with "G", q >= 1 is
   * the whole GiB in kib.
   */
  lemma {:induction false} SizeLabelMeaning(kib: nat)
    ensures var r := SizeLabel(kib / 1024);
      && |r| >= 2
      && (r[|r| - 1] == 'M' || r[|r| - 1] == 'G')
      && ParseInt(r[..|r| - 1]).Some?
      && var q := ParseInt(r[..|r| - 1]).value;
         && (r[|r| - 1] == 'M' ==> q < 1024 && q * 1024 <= kib < (q + 1) * 1024)
         && (r[|r| - 1] == 'G' ==> q >= 1 && q * 1048576 <= kib < (q + 1) * 1048576)
  {
    var mib := kib / 1024;
    var q := if mib > 1023 then mib / 1024 else mib;
    var r := SizeLabel(mib);
    ParseIntOfString(q);
    assert r[..|r| - 1] == IntToString(q);
    ScaleUp(kib, mib, mib + 1);
    if mib > 1023 {
      ScaleUp(mib, q, q + 1);
    }
  }

  /**
   * A line of blkid, "PART: KEY=value ...": it must split on ": " into exactly two
   * parts; then its attributes, with SIZE from the output of `fdisk -s PART`.
   */
  function BlkidEntry(line: string, fdiskSize: string -> string): Result<(string, Attrs)> {
    var halves := Split(Strip(line), ": ");
    if |halves| != 2 then Err(ValueError)
    else
      match AttrTable(halves[1])
      case Err(e) => Err(e)
      case Ok(attrs) =>
        match SizeText(fdiskSize(halves[0]))
        case Err(e) => Err(e)
        case Ok(size) => Ok((halves[0], attrs["SIZE" := size]))
  }

  function BlkidReader(fdiskSize: string -> string): string -> Result<(string, Attrs)> {
    line => BlkidEntry(line, fdiskSize)
  }

  /** The disk a partition is filed under: its name with digits stripped from both ends. */
  function DiskOf(part: string): string {
    StripChars(part, Digits)
  }

  /** The devs dict built from the lines of blkid, or the ValueError of the first bad line. */
  function BlkidTable(lines: seq<string>, fdiskSize: string -> string): Result<DiskTable> {
    match ReadPairs(lines, BlkidReader(fdiskSize))
    case Err(e) => Err(e)
    case Ok(es) => Ok(GroupBy(es, DiskOf))
  }
  /** A devs dict read without error is the grouping of the records of the lines. */
  lemma BlkidTableGroups(lines: seq<string>, fdiskSize: string -> string)
    requires BlkidTable(lines, fdiskSize).Ok?
    ensures ReadPairs(lines, BlkidReader(fdiskSize)).Ok?
    ensures BlkidTable(lines, fdiskSize).value == GroupBy(ReadPairs(lines, BlkidReader(fdiskSize)).value, DiskOf)
  {
  }

  /** The reader the blkid loop applies to each line. */
  lemma ReaderReads(fdiskSize: string -> string, line: string)
    ensures BlkidReader(fdiskSize)(line) == BlkidEntry(line, fdiskSize)
  {
  }

  /** Reading blkid fails exactly when some line is bad, with the error of the first bad line. */
  lemma BlkidTableFails(lines: seq<string>, fdiskSize: string -> string)
    ensures var r := BlkidTable(lines, fdiskSize);
      && (r.Err? <==> exists j :: 0 <= j < |lines| && BlkidEntry(lines[j], fdiskSize).Err?)
      && (r.Err? ==> exists j :: 0 <= j < |lines| && BlkidEntry(lines[j], fdiskSize) == Err(r.error)
                                 && forall k :: 0 <= k < j ==> BlkidEntry(lines[k], fdiskSize).Ok?)
  {
    var read := BlkidReader(fdiskSize);
    forall j | 0 <= j < |lines| {
      ReaderReads(fdiskSize, lines[j]);
    }
    var rp := ReadPairs(lines, read);
    if rp.Err? {
      var j :| 0 <= j < |lines| && read(lines[j]) == Err(rp.error)
               && forall k :: 0 <= k < j ==> read(lines[k]).Ok?;
    }
  }

  /** Every partition of the devs dict is filed under DiskOf of its name, and no disk is left empty. */
  lemma BlkidTableDisks(lines: seq<string>, fdiskSize: string -> string)
    requires BlkidTable(lines, fdiskSize).Ok?
    ensures var t := BlkidTable(lines, fdiskSize).value;
      && (forall dev :: dev in t ==> t[dev] != map[])
      && (forall dev, part :: dev in t && part in t[dev] ==> dev == DiskOf(part))
  {
    BlkidTableGroups(lines, fdiskSize);
    GroupedElements(lines, BlkidReader(fdiskSize), DiskOf);
  }

  /** The record of line i is filed under its disk; it is the one kept when no later line names the partition. */
  lemma BlkidTableRecord(lines: seq<string>, fdiskSize: string -> string, i: nat)
    requires i < |lines| && BlkidTable(lines, fdiskSize).Ok?
    ensures var t, (part, attrs) := BlkidTable(lines, fdiskSize).value, BlkidEntry(lines[i], fdiskSize).value;
      && DiskOf(part) in t && part in t[DiskOf(part)]
      && ((forall j :: i < j < |lines| ==> BlkidEntry(lines[j], fdiskSize).value.0 != part) ==>
            t[DiskOf(part)][part] == attrs)
  {
    BlkidTableGroups(lines, fdiskSize);
    GroupedElement(lines, BlkidReader(fdiskSize), DiskOf, i);
    forall j | 0 <= j < |lines| {
      ReaderReads(fdiskSize, lines[j]);
    }
  }

  /** One line of blkid, read as main reads it: the partition, its attributes and its SIZE. */
  method ReadBlkidLine(line: string, fdiskSize: string -> string) returns (r: Result<(string, Attrs)>)
    ensures r == BlkidEntry(line, fdiskSize)
  {
    var halves := Split(Strip(line), ": ");
    if |halves| != 2 {
      return Err(ValueError);
    }
    var key, info := halves[0], halves[1];
    var attrs := ParseInfo(info);
    if attrs.Err? {
      return Err(attrs.error);
    }
    var size := SizeText(fdiskSize(key));
    if size.Err? {
      return Err(size.error);
    }
    return Ok((key, attrs.value["SIZE" := size.value]));
  }

  /** The loop of main over the lines of blkid (the `fdisk -s` output of each partition is a parameter). */
  method ParseBlkid(lines: seq<string>, fdiskSize: string -> string) returns (r: Result<DiskTable>)
    ensures r == BlkidTable(lines, fdiskSize)
  {
    var devs: DiskTable := map[];
    ghost var es: seq<(string, Attrs)> := [];
    ghost var read := BlkidReader(fdiskSize);
    for i := 0 to |lines|
      invariant ReadPairs(lines[..i], read) == Ok(es)
      invariant devs == GroupBy(es, DiskOf)
    {
      var entry := ReadBlkidLine(lines[i], fdiskSize);
      ReaderReads(fdiskSize, lines[i]);
      if entry.Err? {
        ReadPairsFirstError(lines, read, i);
        return Err(entry.error);
      }
      var (key, record) := entry.value;
      ReadPairsStep(lines, read, i, es);
      GroupByStep(es, key, record, DiskOf);
      SetDefaultFiles(devs, key, record, DiskOf);
      var dev := DiskOf(key);
      if dev !in devs {
        devs := devs[dev := map[]];
      }
      devs := devs[dev := devs[dev][key := record]];
      es := es + [(key, record)];
      assert devs == GroupBy(es, DiskOf);
    }
    assert lines[..|lines|] == lines;
    return Ok(devs);
  }
}

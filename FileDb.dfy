/**
 * stat_devs_list of file_keeper/file_db.py: the mounted partitions of the
 * disk -> partition -> record map that stat_devs returns, listed by disk and then by
 * partition in sorted order, each record marked in place with its disk, its
 * partition and its mount point.
 */
module FileDb {
  import opened Order

  /** A partition's attribute dict, shared between the nested map and the returned list. */
  class PartRecord {
    var attrs: map<string, string>

    constructor (attrs: map<string, string>)
      ensures this.attrs == attrs
    {
      this.attrs := attrs;
    }
  }

  /** What stat_devs returns first: disk -> partition -> record. */
  type Devs = map<string, map<string, PartRecord>>

  /** Every partition of every disk has a dict of its own. */
  ghost predicate Distinct(devs: Devs) {
    forall d1, p1, d2, p2 ::
      d1 in devs && p1 in devs[d1] && d2 in devs && p2 in devs[d2] && (d1 != d2 || p1 != p2)
      ==> devs[d1][p1] != devs[d2][p2]
  }

  /** The records of all partitions. */
  ghost function Records(devs: Devs): set<PartRecord> {
    set d, p | d in devs && p in devs[d] :: devs[d][p]
  }

  /** A partition's dict after the loop, given its dict before. */
  function Annotated(attrs: map<string, string>, dev: string, part: string, mntpnts: map<string, string>)
    : map<string, string>
  {
    var a := attrs["DEV" := dev]["PART" := part];
    if part in mntpnts then a["MNTPNT" := mntpnts[part]] else a
  }

  /**
   * After the loop a partition's dict has DEV = its disk and PART = its name; MNTPNT
   * is its mount point when it is mounted and otherwise what it was; every other key
   * keeps its value.
   */
  lemma AnnotatedKeys(attrs: map<string, string>, dev: string, part: string, mntpnts: map<string, string>)
    ensures var r := Annotated(attrs, dev, part, mntpnts);
      && "DEV" in r && r["DEV"] == dev && "PART" in r && r["PART"] == part
      && (part in mntpnts ==> "MNTPNT" in r && r["MNTPNT"] == mntpnts[part])
      && (part !in mntpnts ==> ("MNTPNT" in r <==> "MNTPNT" in attrs)
                               && ("MNTPNT" in attrs ==> r["MNTPNT"] == attrs["MNTPNT"]))
      && forall k :: k != "DEV" && k != "PART" && k != "MNTPNT" ==>
           (k in r <==> k in attrs) && (k in attrs ==> r[k] == attrs[k])
  {
  }

  /** (disk, partition) is before (disk', partition') in the order of the two sorted loops. */
  predicate PairLess(a: (string, string), b: (string, string)) {
    Less(a.0, b.0) || (a.0 == b.0 && Less(a.1, b.1))
  }

  /** Every (disk, partition) pair is before each later one. */
  predicate PairsIncreasing(l: seq<(string, string)>) {
    forall i, j :: 0 <= i < j < |l| ==> PairLess(l[i], l[j])
  }

  // ---------------------------------------------------------------------------
  // The listing the loops produce

  /** The mounted partitions among names, in that order, with their disk. */
  function DiskListed(dev: string, names: seq<string>, mntpnts: map<string, string>): seq<(string, string)>
    decreases |names|
  {
    if names == [] then []
    else
      var p := names[|names| - 1];
      DiskListed(dev, names[..|names| - 1], mntpnts) + (if p in mntpnts then [(dev, p)] else [])
  }

  /** The mounted partitions of the named disks, disk by disk, each disk's in sorted order. */
  ghost function Listed(devs: Devs, disks: seq<string>, mntpnts: map<string, string>): seq<(string, string)>
    requires forall d :: d in disks ==> d in devs
    decreases |disks|
  {
    if disks == [] then []
    else
      var d := disks[|disks| - 1];
      Listed(devs, disks[..|disks| - 1], mntpnts) + DiskListed(d, SortedSet(devs[d].Keys), mntpnts)
  }

  /** The (disk, partition) pairs stat_devs_list returns the records of. */
  ghost function Listing(devs: Devs, mntpnts: map<string, string>): seq<(string, string)> {
    Listed(devs, SortedSet(devs.Keys), mntpnts)
  }

  /** The number of partitions of the named disks. */
  function Count(devs: Devs, disks: seq<string>): nat
    requires forall d :: d in disks ==> d in devs
    decreases |disks|
  {
    if disks == [] then 0 else Count(devs, disks[..|disks| - 1]) + |devs[disks[|disks| - 1]]|
  }

  /** The number of partitions of all disks. */
  ghost function PartitionCount(devs: Devs): nat {
    Count(devs, SortedSet(devs.Keys))
  }

  // ---------------------------------------------------------------------------
  // What the listing is

  /** One disk's listing: its mounted partitions among names, no more of them than names, in the order of names. */
  lemma {:induction false} DiskListedFacts(dev: string, names: seq<string>, mntpnts: map<string, string>)
    ensures var l := DiskListed(dev, names, mntpnts);
      && |l| <= |names|
      && (forall x :: x in l <==> x.0 == dev && x.1 in names && x.1 in mntpnts)
      && (Increasing(names) ==> forall i, j :: 0 <= i < j < |l| ==> Less(l[i].1, l[j].1))
    decreases |names|
  {
    if names != [] {
      var init, p := names[..|names| - 1], names[|names| - 1];
      assert names == init + [p];
      DiskListedFacts(dev, init, mntpnts);
      var l0 := DiskListed(dev, init, mntpnts);
      if Increasing(names) {
        assert Increasing(init);
        forall i | 0 <= i < |l0| ensures Less(l0[i].1, p) {
          assert l0[i] in l0;
          var k :| 0 <= k < |init| && init[k] == l0[i].1;
        }
      }
    }
  }

  /** The listing of the named disks has no more entries than they have partitions. */
  lemma {:induction false} ListedCount(devs: Devs, disks: seq<string>, mntpnts: map<string, string>)
    requires forall d :: d in disks ==> d in devs
    ensures |Listed(devs, disks, mntpnts)| <= Count(devs, disks)
    decreases |disks|
  {
    if disks != [] {
      var init, d := disks[..|disks| - 1], disks[|disks| - 1];
      assert forall x :: x in init ==> x in disks;
      ListedCount(devs, init, mntpnts);
      DiskListedFacts(d, SortedSet(devs[d].Keys), mntpnts);
      SortedSetSize(devs[d].Keys);
    }
  }

  /** The listing of the named disks holds exactly their mounted partitions. */
  lemma {:induction false} ListedMembers(devs: Devs, disks: seq<string>, mntpnts: map<string, string>)
    requires forall d :: d in disks ==> d in devs
    ensures forall x :: x in Listed(devs, disks, mntpnts) <==> x.0 in disks && x.1 in devs[x.0] && x.1 in mntpnts
    decreases |disks|
  {
    if disks != [] {
      var init, d := disks[..|disks| - 1], disks[|disks| - 1];
      assert disks == init + [d];
      ListedMembers(devs, init, mntpnts);
      DiskListedFacts(d, SortedSet(devs[d].Keys), mntpnts);
    }
  }

  /** With the disks in increasing order, the listing is in increasing (disk, partition) order. */
  lemma {:induction false} ListedOrdered(devs: Devs, disks: seq<string>, mntpnts: map<string, string>)
    requires (forall d :: d in disks ==> d in devs) && Increasing(disks)
    ensures PairsIncreasing(Listed(devs, disks, mntpnts))
    decreases |disks|
  {
    if disks != [] {
      var init, d := disks[..|disks| - 1], disks[|disks| - 1];
      assert disks == init + [d];
      var names := SortedSet(devs[d].Keys);
      var a, b := Listed(devs, init, mntpnts), DiskListed(d, names, mntpnts);
      assert Listed(devs, disks, mntpnts) == a + b;
      assert Increasing(init);
      ListedOrdered(devs, init, mntpnts);
      ListedMembers(devs, init, mntpnts);
      DiskListedFacts(d, names, mntpnts);
      forall i, j | 0 <= i < |a| && 0 <= j < |b| ensures PairLess(a[i], b[j]) {
        assert a[i] in a && b[j] in b;
        var k :| 0 <= k < |init| && init[k] == a[i].0;
      }
      PairsAppend(a, b);
    }
  }

  /** Two runs in increasing order, all of the first before all of the second, make one. */
  lemma PairsAppend(a: seq<(string, string)>, b: seq<(string, string)>)
    requires PairsIncreasing(a) && PairsIncreasing(b)
    requires forall i, j :: 0 <= i < |a| && 0 <= j < |b| ==> PairLess(a[i], b[j])
    ensures PairsIncreasing(a + b)
  {
    forall i, j | 0 <= i < j < |a + b| ensures PairLess((a + b)[i], (a + b)[j]) {
      if j < |a| {
        assert (a + b)[i] == a[i] && (a + b)[j] == a[j];
      } else if i >= |a| {
        assert (a + b)[i] == b[i - |a|] && (a + b)[j] == b[j - |a|];
      } else {
        assert (a + b)[i] == a[i] && (a + b)[j] == b[j - |a|];
      }
    }
  }

  /**
   * stat_devs_list lists a partition exactly when it is a key of mntpnts, in the order
   * of its disk and then of its name, no pair twice, and at most as many as there are
   * partitions.
   */
  lemma ListingFacts(devs: Devs, mntpnts: map<string, string>)
    ensures var l := Listing(devs, mntpnts);
      && (forall x :: x in l <==> x.0 in devs && x.1 in devs[x.0] && x.1 in mntpnts)
      && PairsIncreasing(l)
      && |l| <= PartitionCount(devs)
  {
    ListedCount(devs, SortedSet(devs.Keys), mntpnts);
    ListedMembers(devs, SortedSet(devs.Keys), mntpnts);
    ListedOrdered(devs, SortedSet(devs.Keys), mntpnts);
  }

  /** When each partition lies on one disk only (as blkid's grouping files it), no partition is listed twice. */
  lemma ListingPartsUnique(devs: Devs, mntpnts: map<string, string>)
    requires forall d1, d2, p :: d1 in devs && d2 in devs && p in devs[d1] && p in devs[d2] ==> d1 == d2
    ensures var l := Listing(devs, mntpnts);
      forall i, j :: 0 <= i < j < |l| ==> l[i].1 != l[j].1
  {
    var l := Listing(devs, mntpnts);
    ListingFacts(devs, mntpnts);
    forall i, j | 0 <= i < j < |l| ensures l[i].1 != l[j].1 {
      assert l[i] in l && l[j] in l;
      LessIrreflexive(l[i].0);
      LessIrreflexive(l[i].1);
    }
  }

  /** recs are the records of the (disk, partition) pairs, in order. */
  predicate RecordsOf(devs: Devs, pairs: seq<(string, string)>, recs: seq<PartRecord>) {
    && |recs| == |pairs|
    && forall k :: 0 <= k < |recs| ==>
         pairs[k].0 in devs && pairs[k].1 in devs[pairs[k].0] && recs[k] == devs[pairs[k].0][pairs[k].1]
  }

  lemma RecordsOfAppend(devs: Devs, pairs: seq<(string, string)>, recs: seq<PartRecord>,
                        pairs': seq<(string, string)>, recs': seq<PartRecord>)
    requires RecordsOf(devs, pairs, recs) && RecordsOf(devs, pairs', recs')
    ensures RecordsOf(devs, pairs + pairs', recs + recs')
  {
  }

  // ---------------------------------------------------------------------------
  // stat_devs_list as the loops run

  /**
   * The records stat_devs_list returns are the dicts of the listed partitions
   * themselves, in the listing's order; DEV and PART are written into every
   * partition's dict and MNTPNT into each mounted one's.
   */
  method StatDevsList(devs: Devs, mntpnts: map<string, string>) returns (ans: seq<PartRecord>)
    requires Distinct(devs)
    modifies Records(devs)
    ensures RecordsOf(devs, Listing(devs, mntpnts), ans)
    ensures forall d, p :: d in devs && p in devs[d] ==>
      devs[d][p].attrs == Annotated(old(devs[d][p].attrs), d, p, mntpnts)
  {
    var disks := SortedKeys(devs.Keys);
    IncreasingDistinct(disks);
    assert forall k :: 0 <= k < |disks| ==> disks[k] in devs by {
      forall k | 0 <= k < |disks| ensures disks[k] in devs {
        assert disks[k] in disks;
      }
    }
    ans := AnnotateDisks(devs, disks, mntpnts);
    forall d, p | d in devs && p in devs[d]
      ensures devs[d][p].attrs == Annotated(old(devs[d][p].attrs), d, p, mntpnts)
    {
      assert d in disks;
    }
  }

  /** stat_devs_list's outer loop, run over the given disks in turn. */
  method AnnotateDisks(devs: Devs, disks: seq<string>, mntpnts: map<string, string>) returns (ans: seq<PartRecord>)
    requires Distinct(devs)
    requires forall k :: 0 <= k < |disks| ==> disks[k] in devs
    requires forall i, j :: 0 <= i < |disks| && 0 <= j < |disks| && i != j ==> disks[i] != disks[j]
    modifies Records(devs)
    ensures RecordsOf(devs, Listed(devs, disks, mntpnts), ans)
    ensures forall k, p :: 0 <= k < |disks| && p in devs[disks[k]] ==>
      devs[disks[k]][p].attrs == Annotated(old(devs[disks[k]][p].attrs), disks[k], p, mntpnts)
    ensures forall d, p :: d in devs && d !in disks && p in devs[d] ==> devs[d][p].attrs == old(devs[d][p].attrs)
  {
    ans := [];
    ghost var pairs: seq<(string, string)> := [];
    for i := 0 to |disks|
      invariant pairs == Listed(devs, disks[..i], mntpnts)
      invariant RecordsOf(devs, pairs, ans)
      invariant forall k, p :: 0 <= k < i && p in devs[disks[k]] ==>
        devs[disks[k]][p].attrs == Annotated(old(devs[disks[k]][p].attrs), disks[k], p, mntpnts)
      invariant forall d, p :: d in devs && d !in disks[..i] && p in devs[d] ==>
        devs[d][p].attrs == old(devs[d][p].attrs)
    {
      var dev := disks[i];
      assert disks[..i + 1][..i] == disks[..i];
      ghost var found := DiskListed(dev, SortedSet(devs[dev].Keys), mntpnts);
      var marked := AnnotateDisk(devs, dev, mntpnts);
      RecordsOfAppend(devs, pairs, ans, found, marked);
      ans := ans + marked;
      pairs := pairs + found;
    }
    assert disks[..|disks|] == disks;
  }

  /** The records of one disk are none of another's. */
  lemma OtherDisk(devs: Devs, dev: string, d: string, p: string)
    requires Distinct(devs) && dev in devs && d in devs && d != dev && p in devs[d]
    ensures devs[d][p] !in set q | q in devs[dev] :: devs[dev][q]
  {
  }

  /** The inner loop over one disk's partitions in sorted order. */
  method AnnotateDisk(devs: Devs, dev: string, mntpnts: map<string, string>) returns (found: seq<PartRecord>)
    requires Distinct(devs) && dev in devs
    modifies set p | p in devs[dev] :: devs[dev][p]
    ensures RecordsOf(devs, DiskListed(dev, SortedSet(devs[dev].Keys), mntpnts), found)
    ensures forall p :: p in devs[dev] ==> devs[dev][p].attrs == Annotated(old(devs[dev][p].attrs), dev, p, mntpnts)
    ensures forall d, p :: d in devs && d != dev && p in devs[d] ==> devs[d][p].attrs == old(devs[d][p].attrs)
  {
    var parts := devs[dev];
    var names := SortedKeys(parts.Keys);
    IncreasingDistinct(names);
    assert forall k :: 0 <= k < |names| ==> names[k] in parts by {
      forall k | 0 <= k < |names| ensures names[k] in parts {
        assert names[k] in names;
      }
    }
    found := AnnotateNames(dev, parts, names, mntpnts);
    forall p | p in parts ensures parts[p].attrs == Annotated(old(parts[p].attrs), dev, p, mntpnts) {
      assert p in names;
    }
    forall d, p | d in devs && d != dev && p in devs[d] ensures devs[d][p].attrs == old(devs[d][p].attrs) {
      OtherDisk(devs, dev, d, p);
    }
    ghost var l := DiskListed(dev, names, mntpnts);
    assert RecordsOf(devs, l, found) by {
      DiskListedFacts(dev, names, mntpnts);
      forall k | 0 <= k < |found| ensures l[k].0 == dev {
        assert l[k] in l;
      }
    }
  }

  /** The loop body of stat_devs_list's inner loop, run over the given partition names in turn. */
  method AnnotateNames(dev: string, parts: map<string, PartRecord>, names: seq<string>, mntpnts: map<string, string>)
    returns (found: seq<PartRecord>)
    requires forall k :: 0 <= k < |names| ==> names[k] in parts
    requires forall i, j :: 0 <= i < |names| && 0 <= j < |names| && i != j ==> parts[names[i]] != parts[names[j]]
    modifies set k | 0 <= k < |names| :: parts[names[k]]
    ensures var l := DiskListed(dev, names, mntpnts);
      && |found| == |l|
      && forall k :: 0 <= k < |found| ==> l[k].1 in parts && found[k] == parts[l[k].1]
    ensures forall k :: 0 <= k < |names| ==>
      parts[names[k]].attrs == Annotated(old(parts[names[k]].attrs), dev, names[k], mntpnts)
  {
    found := [];
    ghost var pairs: seq<(string, string)> := [];
    for j := 0 to |names|
      invariant pairs == DiskListed(dev, names[..j], mntpnts)
      invariant |found| == |pairs|
      invariant forall k :: 0 <= k < |found| ==> pairs[k].1 in parts && found[k] == parts[pairs[k].1]
      invariant forall k :: 0 <= k < j ==>
        parts[names[k]].attrs == Annotated(old(parts[names[k]].attrs), dev, names[k], mntpnts)
      invariant forall k :: j <= k < |names| ==> parts[names[k]].attrs == old(parts[names[k]].attrs)
    {
      var part := names[j];
      assert names[..j + 1][..j] == names[..j];
      var d := parts[part];
      Mark(d, dev, part, mntpnts);
      if part in mntpnts {
        found := found + [d];
        pairs := pairs + [(dev, part)];
      }
    }
    assert names[..|names|] == names;
  }

  /** The three writes into one partition's dict. */
  method Mark(d: PartRecord, dev: string, part: string, mntpnts: map<string, string>)
    modifies d
    ensures d.attrs == Annotated(old(d.attrs), dev, part, mntpnts)
  {
    d.attrs := d.attrs["DEV" := dev];
    d.attrs := d.attrs["PART" := part];
    if part in mntpnts {
      d.attrs := d.attrs["MNTPNT" := mntpnts[part]];
    }
  }
}

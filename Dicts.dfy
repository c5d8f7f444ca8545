/**
 * A dict filled by a loop of `d[k] = v` assignments, one per pair of a list: each key
 * ends up bound to the value of its last assignment.
 */
module Dicts {
  import opened Wrappers

  /** The dict after assigning the pairs of ps, in order, to an empty dict. */
  function FromPairs<K(!new), V>(ps: seq<(K, V)>): (m: map<K, V>)
    ensures forall k :: k in m <==> exists i :: 0 <= i < |ps| && ps[i].0 == k
  {
    if ps == [] then map[]
    else
      var init := ps[..|ps| - 1];
      var m := FromPairs(init)[ps[|ps| - 1].0 := ps[|ps| - 1].1];
      assert forall i :: 0 <= i < |init| ==> init[i] == ps[i];
      m
  }

  /** Every key is bound to the value of its LAST assignment: later entries overwrite earlier ones. */
  lemma {:induction false} FromPairsLast<K(!new), V>(ps: seq<(K, V)>, i: nat)
    requires i < |ps|
    requires forall j :: i < j < |ps| ==> ps[j].0 != ps[i].0
    ensures ps[i].0 in FromPairs(ps) && FromPairs(ps)[ps[i].0] == ps[i].1
  {
    if i < |ps| - 1 {
      var init := ps[..|ps| - 1];
      assert init[i] == ps[i];
      FromPairsLast(init, i);
    }
  }

  /**
   * Each element of xs read as a pair, or the error of the first element that cannot be:
   * a loop over xs that raises on the first bad element.
   */
  function ReadPairs<T, K, V>(xs: seq<T>, read: T -> Result<(K, V)>): (r: Result<seq<(K, V)>>)
    ensures r.Ok? <==> forall i :: 0 <= i < |xs| ==> read(xs[i]).Ok?
    ensures r.Ok? ==> |r.value| == |xs|
                      && forall i :: 0 <= i < |xs| ==> r.value[i] == read(xs[i]).value
    ensures r.Err? ==> exists i :: 0 <= i < |xs| && read(xs[i]) == Err(r.error)
                                   && forall j :: 0 <= j < i ==> read(xs[j]).Ok?
  {
    if xs == [] then Ok([])
    else
      var init := xs[..|xs| - 1];
      assert forall i :: 0 <= i < |init| ==> init[i] == xs[i];
      match ReadPairs(init, read)
      case Err(e) => Err(e)
      case Ok(ps) =>
        match read(xs[|xs| - 1])
        case Err(e) => Err(e)
        case Ok(p) => Ok(ps + [p])
  }

  /** The element at i is in the dict; its value is kept when no later element has its key. */
  lemma ReadElement<T, K(!new), V>(xs: seq<T>, read: T -> Result<(K, V)>, i: nat)
    requires i < |xs| && ReadPairs(xs, read).Ok?
    ensures var m, (k, v) := FromPairs(ReadPairs(xs, read).value), read(xs[i]).value;
      && k in m
      && ((forall j :: i < j < |xs| ==> read(xs[j]).value.0 != k) ==> m[k] == v)
  {
    var ps := ReadPairs(xs, read).value;
    if forall j :: i < j < |xs| ==> read(xs[j]).value.0 != ps[i].0 {
      FromPairsLast(ps, i);
    }
  }

  /** The loop stops at its first bad element: an error there is the error of the whole list. */
  lemma ReadPairsFirstError<T, K, V>(xs: seq<T>, read: T -> Result<(K, V)>, i: nat)
    requires i < |xs| && ReadPairs(xs[..i], read).Ok? && read(xs[i]).Err?
    ensures ReadPairs(xs, read) == Err(read(xs[i]).error)
  {
    forall j | 0 <= j < i ensures read(xs[j]).Ok? {
      assert xs[..i][j] == xs[j];
    }
  }

  /** d after `d.setdefault(outer(k), {})[k] = v`: the pair is filed under the group of its key. */
  function FileUnder<K(!new), V>(d: map<K, map<K, V>>, k: K, v: V, outer: K -> K): map<K, map<K, V>> {
    var g := outer(k);
    d[g := (if g in d then d[g] else map[])[k := v]]
  }

  /** The two-level dict after filing the pairs of ps in order. */
  function GroupBy<K(!new), V>(ps: seq<(K, V)>, outer: K -> K): map<K, map<K, V>> {
    if ps == [] then map[]
    else
      var last := ps[|ps| - 1];
      FileUnder(GroupBy(ps[..|ps| - 1], outer), last.0, last.1, outer)
  }

  /**
   * d is the flat dict split by groups: every inner key sits under its group and is in
   * flat, no group is empty, and every key of flat is in d with the same value.
   */
  ghost predicate SplitBy<K(!new), V>(d: map<K, map<K, V>>, flat: map<K, V>, outer: K -> K) {
    && (forall g, k :: g in d && k in d[g] ==> g == outer(k) && k in flat)
    && (forall g :: g in d ==> d[g] != map[])
    && (forall k :: k in flat ==> outer(k) in d && k in d[outer(k)] && d[outer(k)][k] == flat[k])
  }

  /** Filing one pair keeps the two-level dict in step with the flat one. */
  lemma FileStep<K(!new), V>(d0: map<K, map<K, V>>, flat0: map<K, V>, k: K, v: V, outer: K -> K)
    requires SplitBy(d0, flat0, outer)
    ensures SplitBy(FileUnder(d0, k, v, outer), flat0[k := v], outer)
  {
    var d, flat, g := FileUnder(d0, k, v, outer), flat0[k := v], outer(k);
    forall h, x | h in d && x in d[h] ensures h == outer(x) && x in flat {
      if h != g || x != k {
        assert h in d0 && x in d0[h];
      }
    }
    forall h | h in d ensures d[h] != map[] {
      if h == g {
        assert k in d[g];
      }
    }
  }

  /**
   * Grouping a list of pairs gives the dict FromPairs builds from it (a later value
   * for the same key replacing the earlier one) split by groups.
   */
  lemma {:induction false} GroupBySplits<K(!new), V>(ps: seq<(K, V)>, outer: K -> K)
    ensures SplitBy(GroupBy(ps, outer), FromPairs(ps), outer)
  {
    if ps != [] {
      var init := ps[..|ps| - 1];
      GroupBySplits(init, outer);
      FileStep(GroupBy(init, outer), FromPairs(init), ps[|ps| - 1].0, ps[|ps| - 1].1, outer);
    }
  }

  /** One more good element extends the pairs read so far by its pair. */
  lemma ReadPairsStep<T, K, V>(xs: seq<T>, read: T -> Result<(K, V)>, i: nat, ps: seq<(K, V)>)
    requires i < |xs| && ReadPairs(xs[..i], read) == Ok(ps) && read(xs[i]).Ok?
    ensures ReadPairs(xs[..i + 1], read) == Ok(ps + [read(xs[i]).value])
  {
    assert xs[..i + 1][..i] == xs[..i];
  }

  /** Filing one more pair: the grouping of a longer list. */
  lemma GroupByStep<K(!new), V>(ps: seq<(K, V)>, k: K, v: V, outer: K -> K)
    ensures GroupBy(ps + [(k, v)], outer) == FileUnder(GroupBy(ps, outer), k, v, outer)
  {
    assert (ps + [(k, v)])[..|ps|] == ps;
  }

  /** `if g not in d: d[g] = {}` followed by `d[g][k] = v` files the pair under g. */
  lemma SetDefaultFiles<K(!new), V>(d: map<K, map<K, V>>, k: K, v: V, outer: K -> K)
    ensures var g := outer(k);
      var d1 := if g in d then d else d[g := map[]];
      d1[g := d1[g][k := v]] == FileUnder(d, k, v, outer)
  {
  }

  /** The two-level dict built from a list read without error: no group is empty, every key sits under its group. */
  lemma GroupedElements<T, K(!new), V>(xs: seq<T>, read: T -> Result<(K, V)>, outer: K -> K)
    requires ReadPairs(xs, read).Ok?
    ensures var d := GroupBy(ReadPairs(xs, read).value, outer);
      && (forall g :: g in d ==> d[g] != map[])
      && (forall g, k :: g in d && k in d[g] ==> g == outer(k))
  {
    GroupBySplits(ReadPairs(xs, read).value, outer);
  }

  /** Every key of the two-level dict comes from some element of the list. */
  lemma GroupedOrigin<T, K(!new), V>(xs: seq<T>, read: T -> Result<(K, V)>, outer: K -> K)
    requires ReadPairs(xs, read).Ok?
    ensures var d := GroupBy(ReadPairs(xs, read).value, outer);
      forall g, k :: g in d && k in d[g] ==> exists j :: 0 <= j < |xs| && read(xs[j]).value.0 == k
  {
    var ps := ReadPairs(xs, read).value;
    var d := GroupBy(ps, outer);
    GroupBySplits(ps, outer);
    forall g, k | g in d && k in d[g] ensures exists j :: 0 <= j < |xs| && read(xs[j]).value.0 == k {
      assert k in FromPairs(ps);
      var j :| 0 <= j < |ps| && ps[j].0 == k;
      assert read(xs[j]).value.0 == k;
    }
  }

  /** The element at i is in the two-level dict; its value is kept when no later element has its key. */
  lemma GroupedElement<T, K(!new), V>(xs: seq<T>, read: T -> Result<(K, V)>, outer: K -> K, i: nat)
    requires i < |xs| && ReadPairs(xs, read).Ok?
    ensures var d, (k, v) := GroupBy(ReadPairs(xs, read).value, outer), read(xs[i]).value;
      && outer(k) in d && k in d[outer(k)]
      && ((forall j :: i < j < |xs| ==> read(xs[j]).value.0 != k) ==> d[outer(k)][k] == v)
  {
    var ps := ReadPairs(xs, read).value;
    GroupBySplits(ps, outer);
    if forall j :: i < j < |xs| ==> read(xs[j]).value.0 != ps[i].0 {
      FromPairsLast(ps, i);
    }
  }
}

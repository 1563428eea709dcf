/** Greedy packing of items into bands and grouping of bands into pages.

    Items are described only by their natural extents along the band (their width at the
    fixed row height for rows, their height at the fixed column width for columns). */
module Bands {
  import opened Arith

  /** A band holds the items with indices `start <= i < end`. */
  datatype Band = Band(start: nat, end: nat)

  /** Whether item `m` is admitted to the band that begins at `start`, once the items
      `start .. m - 1` are in it. The first item is always admitted, because the overflow
      test only applies to a band that already holds an item. A later item is admitted when
      the natural extents so far, its own included, plus one gap for each item already in
      the band, still fit in `length`. */
  predicate Admits(natural: seq<int>, length: int, gap: int, start: nat, m: nat)
    requires start <= m < |natural|
  {
    m == start || Sum(natural[start..m + 1]) + (m - start) * gap <= length
  }

  /** The inner collection loop: the band begun at `start` holds `start .. next - 1` with
      natural extents summing to `total`; it keeps taking items while they are admitted.
      The result is where the band ends. */
  function Extend(natural: seq<int>, length: int, gap: int, start: nat, next: nat, total: int): (e: nat)
    requires start <= next <= |natural|
    requires total == Sum(natural[start..next])
    requires forall m :: start <= m < next ==> Admits(natural, length, gap, start, m)
    ensures next <= e <= |natural|
    ensures forall m :: start <= m < e ==> Admits(natural, length, gap, start, m)
    ensures e < |natural| ==> !Admits(natural, length, gap, start, e)
    decreases |natural| - next
  {
    if next == |natural| then next
    else
      SumSliceStep(natural, start, next);
      if next > start && total + natural[next] + (next - start) * gap > length then next
      else Extend(natural, length, gap, start, next + 1, total + natural[next])
  }

  /** End of the band that begins at `start`: the band is never empty, every item in it
      was admitted, and it stops at the first item that is not admitted or at the end of
      the input. For a band of k > 1 items, the natural extents plus k - 1 gaps fit in
      `length`; the item after the band would overflow. */
  function BandEnd(natural: seq<int>, length: int, gap: int, start: nat): (e: nat)
    requires start < |natural|
    ensures && start < e <= |natural|
            && (forall m :: start <= m < e ==> Admits(natural, length, gap, start, m))
            && (e < |natural| ==> !Admits(natural, length, gap, start, e))
            && (e - start > 1 ==> Sum(natural[start..e]) + (e - start - 1) * gap <= length)
            && (e < |natural| ==> Sum(natural[start..e + 1]) + (e - start) * gap > length)
  {
    var stop := Extend(natural, length, gap, start, start, 0);
    assert stop > start by {
      if stop == start { assert Admits(natural, length, gap, start, start); }
    }
    assert stop - start > 1 ==> Admits(natural, length, gap, start, stop - 1);
    stop
  }

  /** The end found by the greedy scan is the only one with its two properties: every item
      before it is admitted and the item at it (if any) is not. */
  lemma BandEndUnique(natural: seq<int>, length: int, gap: int, start: nat, e: nat)
    requires start < e <= |natural|
    requires forall m :: start <= m < e ==> Admits(natural, length, gap, start, m)
    requires e < |natural| ==> !Admits(natural, length, gap, start, e)
    ensures e == BandEnd(natural, length, gap, start)
  {
  }

  /** An item whose natural extent alone exceeds `length` forms a band by itself: it is
      admitted as the band's first item and nothing after it fits. */
  lemma OversizedItemAlone(natural: seq<int>, length: int, gap: int, start: nat)
    requires start < |natural| && NonNegative(natural) && gap >= 0
    requires natural[start] > length
    ensures BandEnd(natural, length, gap, start) == start + 1
  {
    if start + 1 < |natural| {
      SumSliceStep(natural, start, start + 1);
      assert natural[start..start + 1] == [natural[start]];
      assert Sum([natural[start]]) == natural[start] + Sum([natural[start]][1..]);
      assert !Admits(natural, length, gap, start, start + 1);
    }
    BandEndUnique(natural, length, gap, start, start + 1);
  }

  /** Whether `bands` cover `from .. to - 1` one after another, each band beginning where
      the previous one ended. */
  predicate Contiguous(bands: seq<Band>, from: nat, to: nat)
  {
    if |bands| == 0 then from == to
    else bands[0].start == from && bands[0].start <= bands[0].end && Contiguous(bands[1..], bands[0].end, to)
  }

  /** Where the bands that begin at `from` end. */
  function Reach(bands: seq<Band>, from: nat): nat
  {
    if |bands| == 0 then from else bands[|bands| - 1].end
  }

  lemma {:induction false} ContiguousSplit(a: seq<Band>, b: seq<Band>, from: nat, to: nat)
    requires Contiguous(a + b, from, to)
    ensures Contiguous(a, from, Reach(a, from)) && Contiguous(b, Reach(a, from), to)
  {
    if |a| > 0 {
      assert (a + b)[1..] == a[1..] + b;
      ContiguousSplit(a[1..], b, a[0].end, to);
      if |a| > 1 {
        assert Reach(a[1..], a[0].end) == Reach(a, from);
      }
    } else {
      assert a + b == b;
    }
  }

  /** Consecutive bands that begin at `from` all begin at or after it. */
  lemma {:induction false} ContiguousStarts(bands: seq<Band>, from: nat, to: nat)
    requires Contiguous(bands, from, to)
    ensures forall q :: 0 <= q < |bands| ==> from <= bands[q].start
    decreases |bands|
  {
    if |bands| > 0 {
      ContiguousStarts(bands[1..], bands[0].end, to);
      forall q | 1 <= q < |bands|
        ensures from <= bands[q].start
      {
        assert bands[q] == bands[1..][q - 1];
      }
    }
  }

  /** The consecutive bands the greedy scan forms from `start` to the end of the input. */
  function Partition(natural: seq<int>, length: int, gap: int, start: nat): (bands: seq<Band>)
    requires start <= |natural|
    decreases |natural| - start
  {
    if start == |natural| then []
    else
      var e := BandEnd(natural, length, gap, start);
      [Band(start, e)] + Partition(natural, length, gap, e)
  }

  /** The bands of the partition cover the input from `start` on, one after another, each
      non-empty and each ending where the greedy scan begun at its first item ends it. */
  lemma {:induction false} PartitionBands(natural: seq<int>, length: int, gap: int, start: nat)
    requires start <= |natural|
    ensures Contiguous(Partition(natural, length, gap, start), start, |natural|)
    ensures forall q :: 0 <= q < |Partition(natural, length, gap, start)| ==>
              var b := Partition(natural, length, gap, start)[q];
              start <= b.start < |natural| && b.end == BandEnd(natural, length, gap, b.start)
    decreases |natural| - start
  {
    if start < |natural| {
      var e := BandEnd(natural, length, gap, start);
      var rest := Partition(natural, length, gap, e);
      PartitionBands(natural, length, gap, e);
      var bands := [Band(start, e)] + rest;
      assert bands[1..] == rest;
      assert forall q :: 0 < q < |bands| ==> bands[q] == rest[q - 1];
    }
  }

  /** Pages of bands: consecutive groups of `perPage` bands, the last group possibly
      shorter, no group empty, and nothing lost or reordered. */
  function Paginate<T>(xs: seq<T>, perPage: nat): (pages: seq<seq<T>>)
    requires perPage > 0
    ensures Flatten(pages) == xs
    ensures forall p :: 0 <= p < |pages| ==> 0 < |pages[p]| <= perPage
    ensures forall p :: 0 <= p < |pages| - 1 ==> |pages[p]| == perPage
    decreases |xs|
  {
    if |xs| == 0 then []
    else if |xs| <= perPage then
      assert Flatten([xs]) == xs + Flatten([xs][1..]);
      [xs]
    else
      var rest := Paginate(xs[perPage..], perPage);
      assert ([xs[..perPage]] + rest)[1..] == rest;
      assert xs == xs[..perPage] + xs[perPage..];
      [xs[..perPage]] + rest
  }

  /** Full pages followed by a partial, non-empty last page are paginated back into
      exactly those pages. */
  lemma {:induction false} PaginateFullPages<T>(full: seq<seq<T>>, last: seq<T>, perPage: nat)
    requires perPage > 0 && 0 < |last| <= perPage
    requires forall p :: 0 <= p < |full| ==> |full[p]| == perPage
    ensures Paginate(Flatten(full) + last, perPage) == full + [last]
  {
    if |full| == 0 {
      assert Flatten(full) + last == last;
    } else {
      var xs := Flatten(full) + last;
      assert xs == full[0] + (Flatten(full[1..]) + last);
      assert xs[..perPage] == full[0];
      assert xs[perPage..] == Flatten(full[1..]) + last;
      PaginateFullPages(full[1..], last, perPage);
      assert full + [last] == [full[0]] + (full[1..] + [last]);
    }
  }
}

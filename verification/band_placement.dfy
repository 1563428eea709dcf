/** Placing one band: scaling its items to the band's fixed thickness, justifying them so
    they fill the band's length, clamping to the optional maximum size, and assigning
    pixel rectangles. One routine serves both orientations.

    Band coordinates: "along" is the axis a band runs along (x for a row, y for a column),
    "across" is the axis bands are stacked on (y for a row, x for a column). An item's
    "extent" is its size along the band (width in a row, height in a column) and its
    "thickness" its size across (height in a row, width in a column). */
module BandPlacement {
  import opened Wrappers
  import opened Config
  import opened Arith

  /** Where and at what size one source image is drawn on its page. */
  datatype ImagePlacement = ImagePlacement(imageIdx: int, x: int, y: int, width: int, height: int)

  /** A source image's `(width, height)`. */
  type Dim = (int, int)

  /** The image dimension that lies along the band. */
  function Along(mode: LayoutMode, d: Dim): int
  {
    match mode
    case Horizontal => d.0
    case Vertical => d.1
  }

  /** The image dimension that lies across the band. */
  function Across(mode: LayoutMode, d: Dim): int
  {
    match mode
    case Horizontal => d.1
    case Vertical => d.0
  }

  function AlongPos(mode: LayoutMode, p: ImagePlacement): int
  {
    match mode
    case Horizontal => p.x
    case Vertical => p.y
  }

  function AcrossPos(mode: LayoutMode, p: ImagePlacement): int
  {
    match mode
    case Horizontal => p.y
    case Vertical => p.x
  }

  function Extent(mode: LayoutMode, p: ImagePlacement): int
  {
    match mode
    case Horizontal => p.width
    case Vertical => p.height
  }

  function Thickness(mode: LayoutMode, p: ImagePlacement): int
  {
    match mode
    case Horizontal => p.height
    case Vertical => p.width
  }

  /** The placement with the given band coordinates; the four projections above read them
      back unchanged. */
  function Orient(mode: LayoutMode, idx: int, along: int, across: int, extent: int, thickness: int): (p: ImagePlacement)
    ensures p.imageIdx == idx
    ensures AlongPos(mode, p) == along && AcrossPos(mode, p) == across
    ensures Extent(mode, p) == extent && Thickness(mode, p) == thickness
  {
    match mode
    case Horizontal => ImagePlacement(idx, along, across, extent, thickness)
    case Vertical => ImagePlacement(idx, across, along, thickness, extent)
  }

  /** Whether every image has a positive width and height: the aspect ratio `w / h` and,
      for columns, its reciprocal are then defined. */
  predicate Measurable(dims: seq<Dim>)
  {
    forall j :: 0 <= j < |dims| ==> dims[j].0 > 0 && dims[j].1 > 0
  }

  /** An image's natural extent at band thickness `thickness`: for a row,
      `int(row_height * (w / h))`; for a column, `int(col_width / (w / h))`. */
  function NaturalExtent(mode: LayoutMode, thickness: int, d: Dim): (n: int)
    requires Across(mode, d) > 0
  {
    TruncDiv(thickness * Along(mode, d), Across(mode, d))
  }

  function Naturals(mode: LayoutMode, thickness: int, dims: seq<Dim>): (ns: seq<int>)
    requires forall j :: 0 <= j < |dims| ==> Across(mode, dims[j]) > 0
  {
    seq(|dims|, j requires 0 <= j < |dims| => NaturalExtent(mode, thickness, dims[j]))
  }

  /** At a non-negative thickness an image's natural extent is the floor of its exact
      scaled size, so it is never negative. */
  lemma NaturalsBounds(mode: LayoutMode, thickness: int, dims: seq<Dim>)
    requires thickness >= 0 && Measurable(dims)
    ensures NonNegative(Naturals(mode, thickness, dims))
    ensures forall j :: 0 <= j < |dims| ==>
              && Naturals(mode, thickness, dims)[j] * Across(mode, dims[j]) <= thickness * Along(mode, dims[j])
              && thickness * Along(mode, dims[j]) < (Naturals(mode, thickness, dims)[j] + 1) * Across(mode, dims[j])
  {
    var ns := Naturals(mode, thickness, dims);
    forall j | 0 <= j < |dims|
      ensures ns[j] >= 0
      ensures ns[j] * Across(mode, dims[j]) <= thickness * Along(mode, dims[j])
      ensures thickness * Along(mode, dims[j]) < (ns[j] + 1) * Across(mode, dims[j])
    {
      assert thickness * Along(mode, dims[j]) >= 0;
    }
  }

  /** The length left for images once the gaps between `count` items are taken out. */
  function Available(length: int, count: int, gap: int): int
  {
    length - (if count > 1 then (count - 1) * gap else 0)
  }

  /** One item's justified extent: its natural extent times `available / total`, truncated;
      the scale factor is 1 when the total natural extent is not positive. */
  function Scale(natural: int, available: int, total: int): int
  {
    if total > 0 then TruncDiv(natural * available, total) else natural
  }

  function Justify(ws: seq<int>, available: int, total: int): (fs: seq<int>)
  {
    seq(|ws|, j requires 0 <= j < |ws| => Scale(ws[j], available, total))
  }

  /** Summed over a band, truncation loses less than one pixel per item: with a positive
      total `t` and `a >= 0`, the justified extents times `t` are at most the natural ones
      times `a`, and more than that minus `t` per item. */
  lemma {:induction false} JustifyScaledSum(ws: seq<int>, a: int, t: int)
    requires t > 0 && a >= 0 && NonNegative(ws)
    ensures Sum(Justify(ws, a, t)) * t <= Sum(ws) * a
    ensures Sum(ws) * a + |ws| <= Sum(Justify(ws, a, t)) * t + |ws| * t
  {
    if |ws| > 0 {
      var fs := Justify(ws, a, t);
      assert fs[1..] == Justify(ws[1..], a, t);
      JustifyScaledSum(ws[1..], a, t);
      var s1, w1, k1 := Sum(fs[1..]), Sum(ws[1..]), |ws| - 1;
      MulNonNegative(ws[0], a);
      var q := TruncDiv(ws[0] * a, t);
      assert fs[0] == q;
      assert q * t <= ws[0] * a < q * t + t;
      MulDistributes(q, s1, t);
      MulDistributes(ws[0], w1, a);
      MulDistributes(1, k1, t);
      assert Sum(fs) == q + s1;
      assert Sum(ws) == ws[0] + w1;
    }
  }

  /** Proportional justification never overfills: the justified extents are non-negative
      and, when the natural extents have a positive total, add up to at most `available`;
      when the total is zero, the scale factor is 1 and they stay natural. */
  lemma JustifiedTotal(ws: seq<int>, available: int)
    requires NonNegative(ws) && available >= 0
    ensures NonNegative(Justify(ws, available, Sum(ws)))
    ensures Sum(ws) > 0 ==> Sum(Justify(ws, available, Sum(ws))) <= available
    ensures Sum(ws) == 0 ==> Justify(ws, available, Sum(ws)) == ws
  {
    var t := Sum(ws);
    var fs := Justify(ws, available, t);
    forall j | 0 <= j < |ws|
      ensures fs[j] >= 0
    {
      MulNonNegative(ws[j], available);
    }
    if t > 0 {
      JustifyScaledSum(ws, available, t);
      assert t * available == available * t;
      MulCancelLe(Sum(fs), available, t);
    }
  }

  /** ... and nearly fills: truncation loses less than one pixel per item, so the justified
      extents fall short of `available` by less than their number. */
  lemma JustifiedNearlyFills(ws: seq<int>, available: int)
    requires NonNegative(ws) && available >= 0 && Sum(ws) > 0
    ensures available - |ws| < Sum(Justify(ws, available, Sum(ws)))
  {
    var t := Sum(ws);
    var k := |ws|;
    var sf := Sum(Justify(ws, available, t));
    JustifyScaledSum(ws, available, t);
    assert t * available == available * t;
    MulDistributes(sf, k, t);
    MulCancelLt(available, sf + k, t);
  }

  /** The `max_size` cap. A value of 0 is falsy in the source and does not clamp, though a
      valid configuration never holds it. The result is the extent itself, or the cap when
      the extent exceeds it; so it never exceeds the extent, nor a positive cap. */
  function Clamp(extent: int, maxSize: Option<int>): (c: int)
    ensures c <= extent
    ensures c == extent || (maxSize.Some? && c == maxSize.value < extent)
    ensures maxSize.Some? && maxSize.value > 0 ==> c <= maxSize.value
    ensures maxSize.Some? && maxSize.value != 0 && extent > maxSize.value ==> c == maxSize.value
    ensures maxSize == Some(0) ==> c == extent
  {
    if maxSize.Some? && maxSize.value != 0 && extent > maxSize.value then maxSize.value else extent
  }

  function ClampAll(extents: seq<int>, maxSize: Option<int>): (cs: seq<int>)
  {
    seq(|extents|, j requires 0 <= j < |extents| => Clamp(extents[j], maxSize))
  }

  /** The final extents of a band's items: natural extents, justified to fill the band's
      length less its gaps, then clamped. */
  function BandExtents(mode: LayoutMode, dims: seq<Dim>, length: int, thickness: int, gap: int, maxSize: Option<int>): (cs: seq<int>)
    requires forall j :: 0 <= j < |dims| ==> Across(mode, dims[j]) > 0
    ensures |cs| == |dims|
  {
    var ws := Naturals(mode, thickness, dims);
    ClampAll(Justify(ws, Available(length, |dims|, gap), Sum(ws)), maxSize)
  }

  /** Along-band positions of items laid end to end from `start` with `gap` between them:
      the first is at `start`, each next one after the previous item and a gap, so item j
      sits after the extents of the j items before it and j gaps. */
  function Positions(start: int, extents: seq<int>, gap: int): (xs: seq<int>)
    ensures |xs| == |extents|
    ensures |xs| > 0 ==> xs[0] == start
    ensures forall j :: 0 < j < |xs| ==> xs[j] == xs[j - 1] + extents[j - 1] + gap
    ensures forall j :: 0 <= j < |xs| ==> xs[j] == start + Sum(extents[..j]) + j * gap
    decreases |extents|
  {
    if |extents| == 0 then []
    else
      var rest := Positions(start + extents[0] + gap, extents[1..], gap);
      var xs := [start] + rest;
      assert forall j :: 0 < j < |xs| ==> xs[j] == rest[j - 1];
      forall j | 0 < j < |xs|
        ensures xs[j] == start + Sum(extents[..j]) + j * gap
      {
        assert extents[..j][1..] == extents[1..][..j - 1];
      }
      xs
  }

  /** A band with a single item whose natural extent is positive: justification stretches
      it to the whole band length, and only the cap can shorten it. */
  lemma LoneItemFillsLength(mode: LayoutMode, d: Dim, length: int, thickness: int, gap: int, maxSize: Option<int>)
    requires Across(mode, d) > 0 && length >= 0
    requires NaturalExtent(mode, thickness, d) > 0
    ensures BandExtents(mode, [d], length, thickness, gap, maxSize) == [Clamp(length, maxSize)]
  {
    var w := NaturalExtent(mode, thickness, d);
    var ws := Naturals(mode, thickness, [d]);
    assert ws == [w];
    assert Sum(ws) == w + Sum(ws[1..]);
    MulNonNegative(w, length);
    var q := TruncDiv(w * length, w);
    assert w * length == length * w;
    assert q * w <= length * w < q * w + w;
    MulCancelLe(q, length, w);
    MulDistributes(q, 1, w);
    MulCancelLt(length, q + 1, w);
    assert Justify(ws, length, w) == [q];
  }

  /** `_place_row_horizontal` / `_place_col_vertical`: the placements of one band whose
      items are `dims`, with source indices `indices`. Every placement keeps its source
      index and order, sits at `acrossPos` with the band's thickness, starts where the
      previous one ended plus a gap (the first at `alongStart`), and takes the band's
      final extent. */
  function PlaceBand(
    mode: LayoutMode, dims: seq<Dim>, indices: seq<int>,
    length: int, thickness: int, gap: int, alongStart: int, acrossPos: int, maxSize: Option<int>
  ): (ps: seq<ImagePlacement>)
    requires |indices| == |dims|
    requires forall j :: 0 <= j < |dims| ==> Across(mode, dims[j]) > 0
    ensures |ps| == |dims|
    ensures forall j :: 0 <= j < |ps| ==>
              && ps[j].imageIdx == indices[j]
              && AcrossPos(mode, ps[j]) == acrossPos
              && Thickness(mode, ps[j]) == thickness
              && Extent(mode, ps[j]) == BandExtents(mode, dims, length, thickness, gap, maxSize)[j]
    ensures |ps| > 0 ==> AlongPos(mode, ps[0]) == alongStart
    ensures forall j :: 0 < j < |ps| ==>
              AlongPos(mode, ps[j]) == AlongPos(mode, ps[j - 1]) + Extent(mode, ps[j - 1]) + gap
  {
    var cs := BandExtents(mode, dims, length, thickness, gap, maxSize);
    var xs := Positions(alongStart, cs, gap);
    seq(|dims|, j requires 0 <= j < |dims| => Orient(mode, indices[j], xs[j], acrossPos, cs[j], thickness))
  }

  /** An item's position along the band depends only on the final extents of the items
      before it: clamping an item to the cap shortens that item but never moves it. */
  lemma PlaceBandPositions(
    mode: LayoutMode, dims: seq<Dim>, indices: seq<int>,
    length: int, thickness: int, gap: int, alongStart: int, acrossPos: int, maxSize: Option<int>
  )
    requires |indices| == |dims|
    requires forall j :: 0 <= j < |dims| ==> Across(mode, dims[j]) > 0
    ensures forall j :: 0 <= j < |dims| ==>
              AlongPos(mode, PlaceBand(mode, dims, indices, length, thickness, gap, alongStart, acrossPos, maxSize)[j])
              == alongStart + Sum(BandExtents(mode, dims, length, thickness, gap, maxSize)[..j]) + j * gap
  {
  }

  /** The final extents of a band that passed the greedy fit (one item, or natural extents
      plus gaps within `length`) are non-negative, respect a positive cap, and together with
      the gaps fit in `length`. */
  lemma BandExtentsFit(mode: LayoutMode, dims: seq<Dim>, length: int, thickness: int, gap: int, maxSize: Option<int>)
    requires Measurable(dims) && thickness >= 0 && gap >= 0 && length >= 0
    requires maxSize.None? || maxSize.value > 0
    requires |dims| <= 1 || Sum(Naturals(mode, thickness, dims)) + (|dims| - 1) * gap <= length
    ensures NonNegative(BandExtents(mode, dims, length, thickness, gap, maxSize))
    ensures |dims| > 0 ==> Sum(BandExtents(mode, dims, length, thickness, gap, maxSize)) + (|dims| - 1) * gap <= length
    ensures maxSize.Some? ==> forall j :: 0 <= j < |dims| ==> BandExtents(mode, dims, length, thickness, gap, maxSize)[j] <= maxSize.value
  {
    var ws := Naturals(mode, thickness, dims);
    NaturalsBounds(mode, thickness, dims);
    SumNonNegative(ws);
    var a := Available(length, |dims|, gap);
    assert a >= Sum(ws) || |dims| <= 1;
    assert a >= 0;
    var fs := Justify(ws, a, Sum(ws));
    JustifiedTotal(ws, a);
    var cs := ClampAll(fs, maxSize);
    assert cs == BandExtents(mode, dims, length, thickness, gap, maxSize);
    SumPointwiseBound(cs, fs);
    if |dims| > 0 && Sum(ws) == 0 {
      assert Sum(fs) <= a;
    }
  }

  /** Every placement of a band that passed the greedy fit lies within the band's length,
      measured from `alongStart`, and has a non-negative extent. */
  lemma PlaceBandWithinLength(
    mode: LayoutMode, dims: seq<Dim>, indices: seq<int>,
    length: int, thickness: int, gap: int, alongStart: int, acrossPos: int, maxSize: Option<int>
  )
    requires |indices| == |dims|
    requires Measurable(dims) && thickness >= 0 && gap >= 0 && length >= 0
    requires maxSize.None? || maxSize.value > 0
    requires |dims| <= 1 || Sum(Naturals(mode, thickness, dims)) + (|dims| - 1) * gap <= length
    ensures forall j :: 0 <= j < |dims| ==>
              var p := PlaceBand(mode, dims, indices, length, thickness, gap, alongStart, acrossPos, maxSize)[j];
              && 0 <= Extent(mode, p)
              && alongStart <= AlongPos(mode, p)
              && AlongPos(mode, p) + Extent(mode, p) <= alongStart + length
              && (maxSize.Some? ==> Extent(mode, p) <= maxSize.value)
  {
    var ps := PlaceBand(mode, dims, indices, length, thickness, gap, alongStart, acrossPos, maxSize);
    var cs := BandExtents(mode, dims, length, thickness, gap, maxSize);
    var xs := Positions(alongStart, cs, gap);
    BandExtentsFit(mode, dims, length, thickness, gap, maxSize);
    var k := |dims|;
    forall j | 0 <= j < k
      ensures 0 <= Extent(mode, ps[j])
      ensures alongStart <= AlongPos(mode, ps[j])
      ensures AlongPos(mode, ps[j]) + Extent(mode, ps[j]) <= alongStart + length
    {
      assert AlongPos(mode, ps[j]) == xs[j];
      assert cs[..j + 1] == cs[..j] + [cs[j]];
      SumAppend(cs[..j], [cs[j]]);
      assert Sum([cs[j]]) == cs[j] + Sum([cs[j]][1..]);
      assert NonNegative(cs[..j + 1]);
      SumNonNegative(cs[..j]);
      SumPrefixBound(cs, j + 1);
      MulMonotone(j, k - 1, gap);
      MulNonNegative(j, gap);
    }
  }
}

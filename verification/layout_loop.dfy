/** The engine as the source writes it: an outer loop over bands that starts a new page
    when the current one holds `numSplits` bands, and an inner loop that collects the
    images of one band while they fit. It is proved to compute exactly the reference
    layout, so every property proved of that layout holds of it. */
module LayoutLoop {
  import opened Config
  import opened Arith
  import opened Bands
  import opened BandPlacement
  import opened Layout

  /** Adding a band at the end of a page appends its placements, in the next slot. */
  lemma {:induction false} PagePlacementsSnoc(mode: LayoutMode, cfg: GridConfig, dims: seq<Dim>, bands: seq<Band>, b: Band, r: int)
    requires cfg.numSplits > 0 && Measurable(dims)
    requires BandsWithin(bands, |dims|) && b.start <= b.end <= |dims|
    ensures BandsWithin(bands + [b], |dims|)
    ensures PagePlacements(mode, cfg, dims, bands + [b], r)
         == PagePlacements(mode, cfg, dims, bands, r) + BandPlacements(mode, cfg, dims, b, r + |bands|)
    decreases |bands|
  {
    var all := bands + [b];
    assert BandsWithin(all, |dims|) by {
      forall q | 0 <= q < |all| ensures all[q].start <= all[q].end <= |dims| {
        if q < |bands| { assert all[q] == bands[q]; }
      }
    }
    if |bands| == 0 {
      assert all[1..] == [];
      calc {
        PagePlacements(mode, cfg, dims, all, r);
        BandPlacements(mode, cfg, dims, b, r) + PagePlacements(mode, cfg, dims, all[1..], r + 1);
        BandPlacements(mode, cfg, dims, b, r);
      }
    } else {
      var rest := bands[1..];
      assert all[1..] == rest + [b];
      assert BandsWithin(rest, |dims|);
      PagePlacementsSnoc(mode, cfg, dims, rest, b, r + 1);
      var head := BandPlacements(mode, cfg, dims, bands[0], r);
      calc {
        PagePlacements(mode, cfg, dims, all, r);
        head + PagePlacements(mode, cfg, dims, rest + [b], r + 1);
        head + (PagePlacements(mode, cfg, dims, rest, r + 1) + BandPlacements(mode, cfg, dims, b, r + |bands|));
        (head + PagePlacements(mode, cfg, dims, rest, r + 1)) + BandPlacements(mode, cfg, dims, b, r + |bands|);
      }
    }
  }

  /** The inner loop of the source: starting at image `start`, collect images while each
      next one still fits in the band (the first always does). Returns the band's images,
      their indices, and where the band ends, which is where the greedy scan ends it. */
  method CollectBand(mode: LayoutMode, cfg: GridConfig, dims: seq<Dim>, start: nat)
    returns (rowDims: seq<Dim>, rowIndices: seq<int>, end: nat)
    requires Valid(cfg) && Measurable(dims) && start < |dims|
    ensures end == BandEnd(BandNaturals(mode, cfg, dims), BandLength(mode, cfg), cfg.gap, start)
    ensures rowDims == dims[start..end] && rowIndices == Range(start, end)
    ensures Measurable(rowDims)
  {
    var n := |dims|;
    var length := BandLength(mode, cfg);
    var thickness := BandThickness(mode, cfg);
    ghost var natural := BandNaturals(mode, cfg, dims);
    rowDims, rowIndices := [], [];
    var total := 0;
    var i := start;
    while i < n
      invariant start <= i <= n
      invariant rowDims == dims[start..i] && rowIndices == Range(start, i)
      invariant total == Sum(natural[start..i])
      invariant forall m :: start <= m < i ==> Admits(natural, length, cfg.gap, start, m)
      decreases n - i
    {
      var scaled := NaturalExtent(mode, thickness, dims[i]);
      var needed := scaled + |rowDims| * cfg.gap;
      SumSliceStep(natural, start, i);
      if total + needed > length && |rowDims| > 0 {
        assert !Admits(natural, length, cfg.gap, start, i);
        break;
      }
      rowDims := rowDims + [dims[i]];
      rowIndices := rowIndices + [i];
      total := total + scaled;
      i := i + 1;
    }
    // The source's fallback that forces one image into an empty band never fires:
    // the overflow test only stops a band that already holds an image.
    assert |rowDims| > 0;
    BandEndUnique(natural, length, cfg.gap, start, i);
    end := i;
  }

  /** What holds at the head of the source's outer loop. The bands formed so far are the
      bands of the emitted pages (`numSplits` each) followed by those of the current page,
      and the greedy bands from image `i` on complete them; the emitted pages and the
      current page's placements are those of the reference layout; `bandIdx` counts the
      current page's bands and `bandPos` is the offset of the next one. */
  ghost predicate LoopInv(
    mode: LayoutMode, cfg: GridConfig, dims: seq<Dim>, i: int,
    fullPages: seq<seq<Band>>, pageBands: seq<Band>,
    pages: seq<seq<ImagePlacement>>, current: seq<ImagePlacement>, bandPos: int, bandIdx: int)
    requires Valid(cfg) && Measurable(dims)
  {
    && 0 <= i <= |dims|
    && (forall p :: 0 <= p < |fullPages| ==> BandsWithin(fullPages[p], |dims|) && |fullPages[p]| == cfg.numSplits)
    && BandsWithin(pageBands, |dims|)
    && Flatten(fullPages) + pageBands
       + Partition(BandNaturals(mode, cfg, dims), BandLength(mode, cfg), cfg.gap, i) == AllBands(mode, cfg, dims)
    && bandIdx == |pageBands| <= cfg.numSplits
    && (|pageBands| == 0 && |fullPages| > 0 ==> i < |dims|)
    && (|pageBands| > 0 ==> |current| > 0)
    && bandPos == BandOffset(mode, cfg, bandIdx)
    && pages == PagesOf(mode, cfg, dims, fullPages)
    && current == PagePlacements(mode, cfg, dims, pageBands, 0)
  }

  lemma LoopStart(mode: LayoutMode, cfg: GridConfig, dims: seq<Dim>)
    requires Valid(cfg) && Measurable(dims)
    ensures LoopInv(mode, cfg, dims, 0, [], [], [], [], 0, 0)
  {
    assert Flatten<Band>([]) == [];
  }

  /** The page is full: it is emitted and a new, empty page begins. */
  lemma EmitPageStep(
    mode: LayoutMode, cfg: GridConfig, dims: seq<Dim>, i: int,
    fullPages: seq<seq<Band>>, pageBands: seq<Band>,
    pages: seq<seq<ImagePlacement>>, current: seq<ImagePlacement>, bandPos: int, bandIdx: int)
    requires Valid(cfg) && Measurable(dims)
    requires LoopInv(mode, cfg, dims, i, fullPages, pageBands, pages, current, bandPos, bandIdx)
    requires bandIdx >= cfg.numSplits && i < |dims|
    ensures LoopInv(mode, cfg, dims, i, fullPages + [pageBands], [], pages + [current], [], 0, 0)
  {
    EmitPage(mode, cfg, dims, fullPages, pageBands);
    var all := fullPages + [pageBands];
    assert forall p :: 0 <= p < |all| ==> |all[p]| == cfg.numSplits;
  }

  /** The greedy band that begins at image `i` is added to the current page, which has a
      free slot. */
  lemma AddBandStep(
    mode: LayoutMode, cfg: GridConfig, dims: seq<Dim>, i: int, end: nat,
    fullPages: seq<seq<Band>>, pageBands: seq<Band>,
    pages: seq<seq<ImagePlacement>>, current: seq<ImagePlacement>, bandPos: int, bandIdx: int)
    requires Valid(cfg) && Measurable(dims)
    requires LoopInv(mode, cfg, dims, i, fullPages, pageBands, pages, current, bandPos, bandIdx)
    requires bandIdx < cfg.numSplits && i < |dims|
    requires end == BandEnd(BandNaturals(mode, cfg, dims), BandLength(mode, cfg), cfg.gap, i)
    ensures i < end <= |dims|
    ensures LoopInv(mode, cfg, dims, end, fullPages, pageBands + [Band(i, end)], pages,
                    current + BandPlacements(mode, cfg, dims, Band(i, end), bandIdx),
                    bandPos + BandThickness(mode, cfg) + cfg.gap, bandIdx + 1)
  {
    var band := Band(i, end);
    AddBand(mode, cfg, dims, fullPages, pageBands, band);
    PagePlacementsSnoc(mode, cfg, dims, pageBands, band, 0);
    NextBandOffset(mode, cfg, bandIdx);
    var placed := BandPlacements(mode, cfg, dims, band, bandIdx);
    assert |placed| == end - i > 0;
    assert current + placed == PagePlacements(mode, cfg, dims, pageBands + [band], 0);
  }

  /** With every image placed, the emitted pages plus the current one, when it holds a
      placement, are the reference layout. */
  lemma LoopFinish(
    mode: LayoutMode, cfg: GridConfig, dims: seq<Dim>,
    fullPages: seq<seq<Band>>, pageBands: seq<Band>,
    pages: seq<seq<ImagePlacement>>, current: seq<ImagePlacement>, bandPos: int, bandIdx: int)
    requires Valid(cfg) && Measurable(dims)
    requires LoopInv(mode, cfg, dims, |dims|, fullPages, pageBands, pages, current, bandPos, bandIdx)
    ensures (if |current| > 0 then pages + [current] else pages) == LayoutAxis(mode, cfg, dims).0
  {
    assert Partition(BandNaturals(mode, cfg, dims), BandLength(mode, cfg), cfg.gap, |dims|) == [];
    FinishLayout(mode, cfg, dims, fullPages, pageBands);
    if |current| > 0 {
      EmitPage(mode, cfg, dims, fullPages, pageBands);
    }
  }

  /** One pass of the source's outer loop: emit the current page if it is full, then
      collect the band that begins at image `i` and place it in the next slot. */
  method LayoutStep(
    mode: LayoutMode, cfg: GridConfig, dims: seq<Dim>, i: nat,
    ghost fullPages: seq<seq<Band>>, ghost pageBands: seq<Band>,
    pages: seq<seq<ImagePlacement>>, current: seq<ImagePlacement>, bandPos: int, bandIdx: int)
    returns (
    next: nat, ghost fullPages': seq<seq<Band>>, ghost pageBands': seq<Band>,
    pages': seq<seq<ImagePlacement>>, current': seq<ImagePlacement>, bandPos': int, bandIdx': int)
    requires Valid(cfg) && Measurable(dims) && i < |dims|
    requires LoopInv(mode, cfg, dims, i, fullPages, pageBands, pages, current, bandPos, bandIdx)
    ensures i < next <= |dims|
    ensures LoopInv(mode, cfg, dims, next, fullPages', pageBands', pages', current', bandPos', bandIdx')
  {
    fullPages', pageBands', pages', current', bandPos', bandIdx' := fullPages, pageBands, pages, current, bandPos, bandIdx;
    if bandIdx' >= cfg.numSplits {
      // The page is full: emit it and start a new one.
      EmitPageStep(mode, cfg, dims, i, fullPages', pageBands', pages', current', bandPos', bandIdx');
      pages' := pages' + [current'];
      current' := [];
      bandPos' := 0;
      bandIdx' := 0;
      fullPages' := fullPages' + [pageBands'];
      pageBands' := [];
    }
    var rowDims, rowIndices, end := CollectBand(mode, cfg, dims, i);
    var placed := PlaceBand(mode, rowDims, rowIndices, BandLength(mode, cfg), BandThickness(mode, cfg),
                            cfg.gap, 0, bandPos', cfg.maxSize);
    assert placed == BandPlacements(mode, cfg, dims, Band(i, end), bandIdx');
    AddBandStep(mode, cfg, dims, i, end, fullPages', pageBands', pages', current', bandPos', bandIdx');
    current' := current' + placed;
    bandPos' := bandPos' + BandThickness(mode, cfg) + cfg.gap;
    bandIdx' := bandIdx' + 1;
    pageBands' := pageBands' + [Band(i, end)];
    next := end;
  }

  /** `calculate_layout_horizontal` (mode HORIZONTAL) and `calculate_layout_vertical`
      (mode VERTICAL), loop for loop. It computes exactly the reference layout. */
  method CalculateLayoutAxis(mode: LayoutMode, cfg: GridConfig, dims: seq<Dim>)
    returns (pages: seq<seq<ImagePlacement>>, count: int)
    requires Valid(cfg) && Measurable(dims)
    ensures (pages, count) == LayoutAxis(mode, cfg, dims)
  {
    ghost var fullPages: seq<seq<Band>> := [];
    ghost var pageBands: seq<Band> := [];
    pages := [];
    var current: seq<ImagePlacement> := [];
    var bandPos := 0;
    var bandIdx := 0;
    var i: nat := 0;
    LoopStart(mode, cfg, dims);
    while i < |dims|
      invariant LoopInv(mode, cfg, dims, i, fullPages, pageBands, pages, current, bandPos, bandIdx)
      decreases |dims| - i
    {
      i, fullPages, pageBands, pages, current, bandPos, bandIdx :=
        LayoutStep(mode, cfg, dims, i, fullPages, pageBands, pages, current, bandPos, bandIdx);
    }
    LoopFinish(mode, cfg, dims, fullPages, pageBands, pages, current, bandPos, bandIdx);
    if |current| > 0 {
      pages := pages + [current];
    }
    count := |pages|;
  }

  /** Once every band is formed, the reference layout is the emitted pages followed by the
      current page if it has bands, or no page at all for empty input. */
  lemma FinishLayout(mode: LayoutMode, cfg: GridConfig, dims: seq<Dim>, fullPages: seq<seq<Band>>, pageBands: seq<Band>)
    requires Valid(cfg) && Measurable(dims)
    requires forall p :: 0 <= p < |fullPages| ==> BandsWithin(fullPages[p], |dims|)
    requires forall p :: 0 <= p < |fullPages| ==> |fullPages[p]| == cfg.numSplits
    requires BandsWithin(pageBands, |dims|) && |pageBands| <= cfg.numSplits
    requires |pageBands| == 0 ==> |fullPages| == 0
    requires Flatten(fullPages) + pageBands == AllBands(mode, cfg, dims)
    ensures |pageBands| > 0 ==>
              LayoutAxis(mode, cfg, dims).0 == PagesOf(mode, cfg, dims, fullPages) + [PagePlacements(mode, cfg, dims, pageBands, 0)]
    ensures |pageBands| == 0 ==> LayoutAxis(mode, cfg, dims).0 == []
  {
    if |pageBands| > 0 {
      PaginateFullPages(fullPages, pageBands, cfg.numSplits);
      assert LayoutBands(mode, cfg, dims) == fullPages + [pageBands];
      EmitPage(mode, cfg, dims, fullPages, pageBands);
    } else {
      assert AllBands(mode, cfg, dims) == [];
    }
  }

  /** Emitting the current page: the pages so far gain its placements, and the bands of
      the emitted pages gain its bands. */
  lemma EmitPage(mode: LayoutMode, cfg: GridConfig, dims: seq<Dim>, fullPages: seq<seq<Band>>, pageBands: seq<Band>)
    requires cfg.numSplits > 0 && Measurable(dims)
    requires forall p :: 0 <= p < |fullPages| ==> BandsWithin(fullPages[p], |dims|)
    requires BandsWithin(pageBands, |dims|)
    ensures forall p :: 0 <= p < |fullPages + [pageBands]| ==> BandsWithin((fullPages + [pageBands])[p], |dims|)
    ensures PagesOf(mode, cfg, dims, fullPages + [pageBands])
         == PagesOf(mode, cfg, dims, fullPages) + [PagePlacements(mode, cfg, dims, pageBands, 0)]
    ensures Flatten(fullPages + [pageBands]) == Flatten(fullPages) + pageBands
  {
    FlattenAppend(fullPages, [pageBands]);
    assert Flatten([pageBands]) == pageBands + Flatten([pageBands][1..]);
  }

  /** Adding the next greedy band: the bands formed so far gain it and the greedy scan
      resumes where it ends; the band is non-empty and within the input. */
  lemma AddBand(mode: LayoutMode, cfg: GridConfig, dims: seq<Dim>, fullPages: seq<seq<Band>>, pageBands: seq<Band>, b: Band)
    requires Valid(cfg) && Measurable(dims) && BandsWithin(pageBands, |dims|)
    requires b.start < |dims| && IsGreedyBand(mode, cfg, dims, b)
    requires Flatten(fullPages) + pageBands
             + Partition(BandNaturals(mode, cfg, dims), BandLength(mode, cfg), cfg.gap, b.start) == AllBands(mode, cfg, dims)
    ensures Flatten(fullPages) + (pageBands + [b])
            + Partition(BandNaturals(mode, cfg, dims), BandLength(mode, cfg), cfg.gap, b.end) == AllBands(mode, cfg, dims)
    ensures b.start < b.end <= |dims|
  {
    var natural := BandNaturals(mode, cfg, dims);
    assert Partition(natural, BandLength(mode, cfg), cfg.gap, b.start)
        == [b] + Partition(natural, BandLength(mode, cfg), cfg.gap, b.end);
  }

  lemma NextBandOffset(mode: LayoutMode, cfg: GridConfig, r: int)
    requires cfg.numSplits > 0
    ensures BandOffset(mode, cfg, r) + BandThickness(mode, cfg) + cfg.gap == BandOffset(mode, cfg, r + 1)
  {
    MulDistributes(r, 1, BandThickness(mode, cfg) + cfg.gap);
  }
}

/** The justified-grid layout engine: bands of fixed thickness are packed greedily with
    images in input order, justified to the canvas, and grouped into pages of
    `numSplits` bands. One definition serves rows (HORIZONTAL) and columns (VERTICAL). */
module Layout {
  import opened Wrappers
  import opened Config
  import opened Arith
  import opened Bands
  import opened BandPlacement

  /** The canvas dimension a band runs along: the width for rows, the height for columns. */
  function BandLength(mode: LayoutMode, cfg: GridConfig): int
  {
    match mode
    case Horizontal => cfg.canvasWidth
    case Vertical => cfg.canvasHeight
  }

  /** The canvas dimension bands are stacked along. */
  function CrossLength(mode: LayoutMode, cfg: GridConfig): int
  {
    match mode
    case Horizontal => cfg.canvasHeight
    case Vertical => cfg.canvasWidth
  }

  /** `fixed_row_height` (rows) or `fixed_col_width` (columns): the largest thickness such
      that `numSplits` bands and the gaps between them fit across the canvas. */
  function BandThickness(mode: LayoutMode, cfg: GridConfig): (b: int)
    requires cfg.numSplits > 0
    ensures cfg.numSplits * b <= CrossLength(mode, cfg) - (cfg.numSplits - 1) * cfg.gap
    ensures CrossLength(mode, cfg) - (cfg.numSplits - 1) * cfg.gap < cfg.numSplits * b + cfg.numSplits
  {
    var room := CrossLength(mode, cfg) - (cfg.numSplits - 1) * cfg.gap;
    assert room == (room / cfg.numSplits) * cfg.numSplits + room % cfg.numSplits;
    room / cfg.numSplits
  }

  /** A valid configuration whose gaps between bands fit across the canvas: the engine
      divides the space left after them among the bands, and that space must not be
      negative (when it is 0 every band is 0 thick). */
  predicate Workable(mode: LayoutMode, cfg: GridConfig)
  {
    Valid(cfg) && CrossLength(mode, cfg) - (cfg.numSplits - 1) * cfg.gap >= 0
  }

  /** Offset across the canvas of band `r` on its page (`current_row_y` / `current_col_x`). */
  function BandOffset(mode: LayoutMode, cfg: GridConfig, r: int): int
    requires cfg.numSplits > 0
  {
    r * (BandThickness(mode, cfg) + cfg.gap)
  }

  /** Natural extents of all images at the band thickness. */
  function BandNaturals(mode: LayoutMode, cfg: GridConfig, dims: seq<Dim>): (ns: seq<int>)
    requires cfg.numSplits > 0 && Measurable(dims)
    ensures |ns| == |dims|
  {
    Naturals(mode, BandThickness(mode, cfg), dims)
  }

  predicate BandsWithin(bands: seq<Band>, n: nat)
  {
    forall q :: 0 <= q < |bands| ==> bands[q].start <= bands[q].end <= n
  }

  /** The placements of band `b` when it is band number `r` of its page. */
  function BandPlacements(mode: LayoutMode, cfg: GridConfig, dims: seq<Dim>, b: Band, r: int): seq<ImagePlacement>
    requires cfg.numSplits > 0 && Measurable(dims) && b.start <= b.end <= |dims|
  {
    PlaceBand(mode, dims[b.start..b.end], Range(b.start, b.end),
      BandLength(mode, cfg), BandThickness(mode, cfg), cfg.gap, 0, BandOffset(mode, cfg, r), cfg.maxSize)
  }

  /** The placements of consecutive bands of one page, the first being band number `r`. */
  function PagePlacements(mode: LayoutMode, cfg: GridConfig, dims: seq<Dim>, bands: seq<Band>, r: int): seq<ImagePlacement>
    requires cfg.numSplits > 0 && Measurable(dims) && BandsWithin(bands, |dims|)
    decreases |bands|
  {
    if |bands| == 0 then []
    else BandPlacements(mode, cfg, dims, bands[0], r) + PagePlacements(mode, cfg, dims, bands[1..], r + 1)
  }

  function PagesOf(mode: LayoutMode, cfg: GridConfig, dims: seq<Dim>, chunks: seq<seq<Band>>): seq<seq<ImagePlacement>>
    requires cfg.numSplits > 0 && Measurable(dims)
    requires forall p :: 0 <= p < |chunks| ==> BandsWithin(chunks[p], |dims|)
  {
    seq(|chunks|, p requires 0 <= p < |chunks| => PagePlacements(mode, cfg, dims, chunks[p], 0))
  }

  /** Whether `b` is a band the greedy scan forms: it begins at an input and ends where
      the scan started at that input stops. */
  predicate IsGreedyBand(mode: LayoutMode, cfg: GridConfig, dims: seq<Dim>, b: Band)
    requires cfg.numSplits > 0 && Measurable(dims)
  {
    b.start < |dims| && b.end == BandEnd(BandNaturals(mode, cfg, dims), BandLength(mode, cfg), cfg.gap, b.start)
  }

  /** The greedy bands of the whole input. */
  function AllBands(mode: LayoutMode, cfg: GridConfig, dims: seq<Dim>): (bands: seq<Band>)
    requires cfg.numSplits > 0 && Measurable(dims)
  {
    Partition(BandNaturals(mode, cfg, dims), BandLength(mode, cfg), cfg.gap, 0)
  }

  /** The greedy bands cover the input from its first image to its last, one after
      another, and each is a band the greedy scan forms. */
  lemma AllBandsGreedy(mode: LayoutMode, cfg: GridConfig, dims: seq<Dim>)
    requires cfg.numSplits > 0 && Measurable(dims)
    ensures Contiguous(AllBands(mode, cfg, dims), 0, |dims|)
    ensures BandsWithin(AllBands(mode, cfg, dims), |dims|)
    ensures forall q :: 0 <= q < |AllBands(mode, cfg, dims)| ==> IsGreedyBand(mode, cfg, dims, AllBands(mode, cfg, dims)[q])
  {
    PartitionBands(BandNaturals(mode, cfg, dims), BandLength(mode, cfg), cfg.gap, 0);
  }

  /** The greedy bands grouped into pages. */
  function LayoutBands(mode: LayoutMode, cfg: GridConfig, dims: seq<Dim>): (chunks: seq<seq<Band>>)
    requires cfg.numSplits > 0 && Measurable(dims)
    ensures forall p :: 0 <= p < |chunks| ==> BandsWithin(chunks[p], |dims|)
  {
    var bands := AllBands(mode, cfg, dims);
    var chunks := Paginate(bands, cfg.numSplits);
    AllBandsGreedy(mode, cfg, dims);
    FlattenMembers(chunks);
    assert forall p, q :: 0 <= p < |chunks| && 0 <= q < |chunks[p]| ==> chunks[p][q] in bands;
    chunks
  }

  /** Every band on every page is a band the greedy scan forms. */
  lemma LayoutBandsGreedy(mode: LayoutMode, cfg: GridConfig, dims: seq<Dim>)
    requires cfg.numSplits > 0 && Measurable(dims)
    ensures forall p, q :: 0 <= p < |LayoutBands(mode, cfg, dims)| && 0 <= q < |LayoutBands(mode, cfg, dims)[p]| ==>
              IsGreedyBand(mode, cfg, dims, LayoutBands(mode, cfg, dims)[p][q])
  {
    var bands := AllBands(mode, cfg, dims);
    var chunks := LayoutBands(mode, cfg, dims);
    AllBandsGreedy(mode, cfg, dims);
    FlattenMembers(chunks);
    assert forall p, q :: 0 <= p < |chunks| && 0 <= q < |chunks[p]| ==> chunks[p][q] in bands;
  }

  /** Reference definition of the layout along one axis: the pages, and their number. */
  function LayoutAxis(mode: LayoutMode, cfg: GridConfig, dims: seq<Dim>): (seq<seq<ImagePlacement>>, int)
    requires Valid(cfg) && Measurable(dims)
  {
    var pages := PagesOf(mode, cfg, dims, LayoutBands(mode, cfg, dims));
    (pages, |pages|)
  }

  /** The source indices of placements, in order. */
  function Indices(ps: seq<ImagePlacement>): (ix: seq<int>)
    ensures |ix| == |ps|
  {
    seq(|ps|, j requires 0 <= j < |ps| => ps[j].imageIdx)
  }

  lemma IndicesAppend(a: seq<ImagePlacement>, b: seq<ImagePlacement>)
    ensures Indices(a + b) == Indices(a) + Indices(b)
  {
  }

  /** The placements of consecutive bands covering `from .. to - 1` carry exactly the
      indices `from, ..., to - 1`, in order. */
  lemma {:induction false} PageIndices(mode: LayoutMode, cfg: GridConfig, dims: seq<Dim>, bands: seq<Band>, r: int, from: nat, to: nat)
    requires cfg.numSplits > 0 && Measurable(dims) && BandsWithin(bands, |dims|)
    requires Contiguous(bands, from, to)
    ensures from <= to
    ensures Indices(PagePlacements(mode, cfg, dims, bands, r)) == Range(from, to)
    decreases |bands|
  {
    if |bands| > 0 {
      var b := bands[0];
      var first := BandPlacements(mode, cfg, dims, b, r);
      assert Indices(first) == Range(b.start, b.end);
      assert BandsWithin(bands[1..], |dims|);
      PageIndices(mode, cfg, dims, bands[1..], r + 1, b.end, to);
      IndicesAppend(first, PagePlacements(mode, cfg, dims, bands[1..], r + 1));
      RangeAppend(from, b.end, to);
    }
  }

  lemma {:induction false} PagesIndices(mode: LayoutMode, cfg: GridConfig, dims: seq<Dim>, chunks: seq<seq<Band>>, from: nat, to: nat)
    requires cfg.numSplits > 0 && Measurable(dims)
    requires forall p :: 0 <= p < |chunks| ==> BandsWithin(chunks[p], |dims|)
    requires Contiguous(Flatten(chunks), from, to)
    ensures from <= to
    ensures Indices(Flatten(PagesOf(mode, cfg, dims, chunks))) == Range(from, to)
    decreases |chunks|
  {
    var pages := PagesOf(mode, cfg, dims, chunks);
    if |chunks| == 0 {
      assert pages == [];
    } else {
      var mid := Reach(chunks[0], from);
      ContiguousSplit(chunks[0], Flatten(chunks[1..]), from, to);
      PageIndices(mode, cfg, dims, chunks[0], 0, from, mid);
      PagesIndices(mode, cfg, dims, chunks[1..], mid, to);
      assert pages[1..] == PagesOf(mode, cfg, dims, chunks[1..]);
      IndicesAppend(pages[0], Flatten(pages[1..]));
      RangeAppend(from, mid, to);
    }
  }

  /** Every input is placed exactly once and in input order: reading the source indices
      over all pages, page by page and placement by placement, gives `0, 1, ..., n - 1`. */
  lemma LayoutCoversInput(mode: LayoutMode, cfg: GridConfig, dims: seq<Dim>)
    requires Valid(cfg) && Measurable(dims)
    ensures Indices(Flatten(LayoutAxis(mode, cfg, dims).0)) == Range(0, |dims|)
  {
    var chunks := LayoutBands(mode, cfg, dims);
    AllBandsGreedy(mode, cfg, dims);
    PagesIndices(mode, cfg, dims, chunks, 0, |dims|);
  }

  /** The page structure: the number returned is the number of pages; a page is emitted
      only when it holds a placement; pages hold the greedy bands in order, at most
      `numSplits` bands each and exactly `numSplits` on every page but the last; empty
      input gives no page. */
  lemma LayoutPageShape(mode: LayoutMode, cfg: GridConfig, dims: seq<Dim>)
    requires Valid(cfg) && Measurable(dims)
    ensures LayoutAxis(mode, cfg, dims).1 == |LayoutAxis(mode, cfg, dims).0| == |LayoutBands(mode, cfg, dims)|
    ensures |dims| == 0 <==> LayoutAxis(mode, cfg, dims).0 == []
    ensures Flatten(LayoutBands(mode, cfg, dims)) == AllBands(mode, cfg, dims)
    ensures forall p :: 0 <= p < |LayoutBands(mode, cfg, dims)| ==> 0 < |LayoutBands(mode, cfg, dims)[p]| <= cfg.numSplits
    ensures forall p :: 0 <= p < |LayoutBands(mode, cfg, dims)| - 1 ==> |LayoutBands(mode, cfg, dims)[p]| == cfg.numSplits
  {
    AllBandsGreedy(mode, cfg, dims);
  }

  /** A page is emitted only when it holds a placement: every greedy band is non-empty. */
  lemma LayoutPagesNonEmpty(mode: LayoutMode, cfg: GridConfig, dims: seq<Dim>)
    requires Valid(cfg) && Measurable(dims)
    ensures forall p :: 0 <= p < |LayoutAxis(mode, cfg, dims).0| ==> |LayoutAxis(mode, cfg, dims).0[p]| > 0
  {
    var pages := LayoutAxis(mode, cfg, dims).0;
    var chunks := LayoutBands(mode, cfg, dims);
    var bands := AllBands(mode, cfg, dims);
    AllBandsGreedy(mode, cfg, dims);
    LayoutBandsGreedy(mode, cfg, dims);
    forall p | 0 <= p < |pages|
      ensures |pages[p]| > 0
    {
      var b := chunks[p][0];
      assert IsGreedyBand(mode, cfg, dims, b);
      assert |BandPlacements(mode, cfg, dims, b, 0)| == b.end - b.start > 0;
    }
  }

  /** The parts of a placement that hold independently of the axis: it lies inside the
      canvas with non-negative size. */
  predicate InCanvas(cfg: GridConfig, pl: ImagePlacement)
  {
    && 0 <= pl.x && 0 <= pl.width && pl.x + pl.width <= cfg.canvasWidth
    && 0 <= pl.y && 0 <= pl.height && pl.y + pl.height <= cfg.canvasHeight
  }

  /** A placement the engine may produce: inside the canvas, with the band thickness,
      within the cap, and in one of the `numSplits` band slots of its page. */
  predicate WellPlaced(mode: LayoutMode, cfg: GridConfig, pl: ImagePlacement)
    requires cfg.numSplits > 0
  {
    && InCanvas(cfg, pl)
    && Thickness(mode, pl) == BandThickness(mode, cfg)
    && (cfg.maxSize.Some? ==> Extent(mode, pl) <= cfg.maxSize.value)
    && exists r :: 0 <= r < cfg.numSplits && AcrossPos(mode, pl) == BandOffset(mode, cfg, r)
  }

  /** Band `r` (with `r < numSplits`) and its thickness fit across the canvas. */
  lemma BandSlotFits(mode: LayoutMode, cfg: GridConfig, r: int)
    requires Workable(mode, cfg) && 0 <= r < cfg.numSplits
    ensures BandThickness(mode, cfg) >= 0
    ensures 0 <= BandOffset(mode, cfg, r)
    ensures BandOffset(mode, cfg, r) + BandThickness(mode, cfg) <= CrossLength(mode, cfg)
  {
    var n, b, g := cfg.numSplits, BandThickness(mode, cfg), cfg.gap;
    MulDistributes(b, 1, n);
    MulCancelLt(0, b + 1, n);
    MulNonNegative(r, b + g);
    MulMonotone(r, n - 1, b + g);
    MulDistributes(n - 1, 1, b);
    assert (n - 1) * (b + g) == (n - 1) * b + (n - 1) * g;
  }

  /** Every placement of a greedy band placed in slot `r < numSplits` is well placed, at
      that slot's offset across the canvas. */
  lemma BandGeometry(mode: LayoutMode, cfg: GridConfig, dims: seq<Dim>, b: Band, r: int)
    requires Workable(mode, cfg) && Measurable(dims)
    requires IsGreedyBand(mode, cfg, dims, b) && 0 <= r < cfg.numSplits
    ensures forall j :: 0 <= j < |BandPlacements(mode, cfg, dims, b, r)| ==>
              && WellPlaced(mode, cfg, BandPlacements(mode, cfg, dims, b, r)[j])
              && AcrossPos(mode, BandPlacements(mode, cfg, dims, b, r)[j]) == BandOffset(mode, cfg, r)
  {
    var thickness := BandThickness(mode, cfg);
    BandSlotFits(mode, cfg, r);
    var natural := BandNaturals(mode, cfg, dims);
    var sub := dims[b.start..b.end];
    assert Naturals(mode, thickness, sub) == natural[b.start..b.end];
    PlaceBandWithinLength(mode, sub, Range(b.start, b.end), BandLength(mode, cfg), thickness, cfg.gap,
      0, BandOffset(mode, cfg, r), cfg.maxSize);
    var ps := BandPlacements(mode, cfg, dims, b, r);
    forall j | 0 <= j < |ps|
      ensures WellPlaced(mode, cfg, ps[j])
    {
      assert AcrossPos(mode, ps[j]) == BandOffset(mode, cfg, r);
    }
  }

  /** Every placement of consecutive greedy bands occupying slots `r .. r + |bands| - 1`,
      all below `numSplits`, is well placed. */
  lemma {:induction false} PageGeometry(mode: LayoutMode, cfg: GridConfig, dims: seq<Dim>, bands: seq<Band>, r: int)
    requires Workable(mode, cfg) && Measurable(dims) && BandsWithin(bands, |dims|)
    requires forall q :: 0 <= q < |bands| ==> IsGreedyBand(mode, cfg, dims, bands[q])
    requires 0 <= r && r + |bands| <= cfg.numSplits
    ensures forall j :: 0 <= j < |PagePlacements(mode, cfg, dims, bands, r)| ==>
              WellPlaced(mode, cfg, PagePlacements(mode, cfg, dims, bands, r)[j])
    decreases |bands|
  {
    if |bands| > 0 {
      BandGeometry(mode, cfg, dims, bands[0], r);
      assert BandsWithin(bands[1..], |dims|);
      PageGeometry(mode, cfg, dims, bands[1..], r + 1);
    }
  }

  /** Band `q` of a page occupies slot `r + q`: a placement whose image lies in band `q`
      sits across the canvas at that slot's offset `(r + q) * (thickness + gap)`. */
  lemma {:induction false} PageSlots(mode: LayoutMode, cfg: GridConfig, dims: seq<Dim>, bands: seq<Band>, r: int, from: nat, to: nat)
    requires cfg.numSplits > 0 && Measurable(dims) && BandsWithin(bands, |dims|)
    requires Contiguous(bands, from, to)
    ensures forall j, q ::
              (&& 0 <= j < |PagePlacements(mode, cfg, dims, bands, r)| && 0 <= q < |bands|
               && bands[q].start <= PagePlacements(mode, cfg, dims, bands, r)[j].imageIdx < bands[q].end) ==>
              AcrossPos(mode, PagePlacements(mode, cfg, dims, bands, r)[j]) == BandOffset(mode, cfg, r + q)
    decreases |bands|
  {
    if |bands| > 0 {
      var ps := PagePlacements(mode, cfg, dims, bands, r);
      var b := bands[0];
      var first := BandPlacements(mode, cfg, dims, b, r);
      var rest := PagePlacements(mode, cfg, dims, bands[1..], r + 1);
      assert ps == first + rest;
      assert BandsWithin(bands[1..], |dims|);
      PageSlots(mode, cfg, dims, bands[1..], r + 1, b.end, to);
      PageIndices(mode, cfg, dims, bands[1..], r + 1, b.end, to);
      ContiguousStarts(bands[1..], b.end, to);
      forall q | 1 <= q < |bands|
        ensures b.end <= bands[q].start && bands[q] == bands[1..][q - 1]
      {
        assert bands[q] == bands[1..][q - 1];
      }
      forall j, q | 0 <= j < |ps| && 0 <= q < |bands| && bands[q].start <= ps[j].imageIdx < bands[q].end
        ensures AcrossPos(mode, ps[j]) == BandOffset(mode, cfg, r + q)
      {
        if j < |first| {
          assert ps[j] == first[j];
          assert ps[j].imageIdx == Range(b.start, b.end)[j];
        } else {
          var k := j - |first|;
          assert ps[j] == rest[k];
          assert Indices(rest)[k] == ps[j].imageIdx;
        }
      }
    }
  }

  /** Slots reset on every page: in each page, the placements of the page's band `q` sit
      across the canvas at `q * (thickness + gap)`. */
  lemma LayoutSlots(mode: LayoutMode, cfg: GridConfig, dims: seq<Dim>)
    requires Valid(cfg) && Measurable(dims)
    ensures forall p, j, q ::
              (&& 0 <= p < |LayoutAxis(mode, cfg, dims).0| && 0 <= j < |LayoutAxis(mode, cfg, dims).0[p]|
               && 0 <= q < |LayoutBands(mode, cfg, dims)[p]|
               && LayoutBands(mode, cfg, dims)[p][q].start <= LayoutAxis(mode, cfg, dims).0[p][j].imageIdx
               && LayoutAxis(mode, cfg, dims).0[p][j].imageIdx < LayoutBands(mode, cfg, dims)[p][q].end) ==>
              AcrossPos(mode, LayoutAxis(mode, cfg, dims).0[p][j]) == BandOffset(mode, cfg, q)
  {
    var pages: seq<seq<ImagePlacement>> := LayoutAxis(mode, cfg, dims).0;
    var chunks: seq<seq<Band>> := LayoutBands(mode, cfg, dims);
    AllBandsGreedy(mode, cfg, dims);
    forall p | 0 <= p < |pages|
      ensures forall j, q ::
                (0 <= j < |pages[p]| && 0 <= q < |chunks[p]| && chunks[p][q].start <= pages[p][j].imageIdx < chunks[p][q].end) ==>
                AcrossPos(mode, pages[p][j]) == BandOffset(mode, cfg, q)
    {
      assert chunks == chunks[..p] + chunks[p..];
      FlattenAppend(chunks[..p], chunks[p..]);
      ContiguousSplit(Flatten(chunks[..p]), Flatten(chunks[p..]), 0, |dims|);
      var m := Reach(Flatten(chunks[..p]), 0);
      ContiguousSplit(chunks[p], Flatten(chunks[p + 1..]), m, |dims|);
      PageSlots(mode, cfg, dims, chunks[p], 0, m, Reach(chunks[p], m));
      assert pages[p] == PagePlacements(mode, cfg, dims, chunks[p], 0);
    }
  }

  /** Geometry of the whole layout: every placement lies inside the canvas, has the fixed
      band thickness, respects the cap on its free-axis size, and sits in one of the
      `numSplits` band slots of its page; each page restarts at the origin. */
  lemma LayoutGeometry(mode: LayoutMode, cfg: GridConfig, dims: seq<Dim>)
    requires Workable(mode, cfg) && Measurable(dims)
    ensures forall p, q :: 0 <= p < |LayoutAxis(mode, cfg, dims).0| && 0 <= q < |LayoutAxis(mode, cfg, dims).0[p]| ==>
              WellPlaced(mode, cfg, LayoutAxis(mode, cfg, dims).0[p][q])
    ensures forall p :: 0 <= p < |LayoutAxis(mode, cfg, dims).0| && |LayoutAxis(mode, cfg, dims).0[p]| > 0 ==>
              AlongPos(mode, LayoutAxis(mode, cfg, dims).0[p][0]) == 0 &&
              AcrossPos(mode, LayoutAxis(mode, cfg, dims).0[p][0]) == 0
  {
    var pages := LayoutAxis(mode, cfg, dims).0;
    var chunks := LayoutBands(mode, cfg, dims);
    LayoutBandsGreedy(mode, cfg, dims);
    forall p | 0 <= p < |pages|
      ensures forall q :: 0 <= q < |pages[p]| ==> WellPlaced(mode, cfg, pages[p][q])
      ensures |pages[p]| > 0 ==> AlongPos(mode, pages[p][0]) == 0 && AcrossPos(mode, pages[p][0]) == 0
    {
      PageGeometry(mode, cfg, dims, chunks[p], 0);
      if |pages[p]| > 0 {
        var b := chunks[p][0];
        assert IsGreedyBand(mode, cfg, dims, b);
        assert pages[p][0] == BandPlacements(mode, cfg, dims, b, 0)[0];
      }
    }
  }

  /** `calculate_layout_horizontal`: rows. */
  function CalculateLayoutHorizontal(cfg: GridConfig, dims: seq<Dim>): (seq<seq<ImagePlacement>>, int)
    requires Valid(cfg) && Measurable(dims)
  {
    LayoutAxis(Horizontal, cfg, dims)
  }

  /** `calculate_layout_vertical`: columns, the mirror image of rows. */
  function CalculateLayoutVertical(cfg: GridConfig, dims: seq<Dim>): (seq<seq<ImagePlacement>>, int)
    requires Valid(cfg) && Measurable(dims)
  {
    LayoutAxis(Vertical, cfg, dims)
  }

  /** Rows, in the source's own coordinates: every placement has height `fixed_row_height`,
      the y of one of the `numSplits` row slots, a width within `max_size`, and lies inside
      the canvas. */
  lemma HorizontalRows(cfg: GridConfig, dims: seq<Dim>)
    requires Workable(Horizontal, cfg) && Measurable(dims)
    ensures forall p, q :: 0 <= p < |CalculateLayoutHorizontal(cfg, dims).0| && 0 <= q < |CalculateLayoutHorizontal(cfg, dims).0[p]| ==>
              var pl := CalculateLayoutHorizontal(cfg, dims).0[p][q];
              && pl.height == (cfg.canvasHeight - (cfg.numSplits - 1) * cfg.gap) / cfg.numSplits
              && 0 <= pl.x && pl.x + pl.width <= cfg.canvasWidth
              && 0 <= pl.y && pl.y + pl.height <= cfg.canvasHeight
              && (cfg.maxSize.Some? ==> pl.width <= cfg.maxSize.value)
              && exists r :: 0 <= r < cfg.numSplits && pl.y == BandOffset(Horizontal, cfg, r)
  {
    LayoutGeometry(Horizontal, cfg, dims);
  }

  /** Columns, in the source's own coordinates: the same statement as for rows with width
      and height, x and y, and the canvas axes swapped. */
  lemma VerticalColumns(cfg: GridConfig, dims: seq<Dim>)
    requires Workable(Vertical, cfg) && Measurable(dims)
    ensures forall p, q :: 0 <= p < |CalculateLayoutVertical(cfg, dims).0| && 0 <= q < |CalculateLayoutVertical(cfg, dims).0[p]| ==>
              var pl := CalculateLayoutVertical(cfg, dims).0[p][q];
              && pl.width == (cfg.canvasWidth - (cfg.numSplits - 1) * cfg.gap) / cfg.numSplits
              && 0 <= pl.y && pl.y + pl.height <= cfg.canvasHeight
              && 0 <= pl.x && pl.x + pl.width <= cfg.canvasWidth
              && (cfg.maxSize.Some? ==> pl.height <= cfg.maxSize.value)
              && exists r :: 0 <= r < cfg.numSplits && pl.x == BandOffset(Vertical, cfg, r)
  {
    LayoutGeometry(Vertical, cfg, dims);
  }

  /** `calculate_layout`: rows or columns according to the configured mode. Whichever it
      is, every input is placed once and in order, the count is the number of pages, no
      page is empty, every placement lies inside the canvas, and the free-axis size
      respects the cap. */
  function CalculateLayout(cfg: GridConfig, dims: seq<Dim>): (r: (seq<seq<ImagePlacement>>, int))
    requires Valid(cfg) && Measurable(dims)
    ensures r == LayoutAxis(cfg.layout, cfg, dims)
    ensures Indices(Flatten(r.0)) == Range(0, |dims|)
    ensures r.1 == |r.0|
    ensures forall p :: 0 <= p < |r.0| ==> |r.0[p]| > 0
    ensures cfg.maxSize.Some? ==>
              forall p, q :: 0 <= p < |r.0| && 0 <= q < |r.0[p]| ==> Extent(cfg.layout, r.0[p][q]) <= cfg.maxSize.value
    ensures Workable(cfg.layout, cfg) ==>
              forall p, q :: 0 <= p < |r.0| && 0 <= q < |r.0[p]| ==> InCanvas(cfg, r.0[p][q])
  {
    var layout := if cfg.layout == Horizontal then CalculateLayoutHorizontal(cfg, dims) else CalculateLayoutVertical(cfg, dims);
    assert layout == LayoutAxis(cfg.layout, cfg, dims);
    LayoutCoversInput(cfg.layout, cfg, dims);
    LayoutPageShape(cfg.layout, cfg, dims);
    LayoutPagesNonEmpty(cfg.layout, cfg, dims);
    LayoutCap(cfg.layout, cfg, dims);
    LayoutInCanvas(cfg.layout, cfg, dims);
    layout
  }

  /** The along-band step the estimate of `calculate_required_images` charges per image:
      the first image's natural extent at the band thickness plus one gap. */
  function EstimateStep(cfg: GridConfig, first: Dim): int
    requires cfg.numSplits > 0 && first.0 > 0 && first.1 > 0
  {
    NaturalExtent(cfg.layout, BandThickness(cfg.layout, cfg), first) + cfg.gap
  }

  /** Images of the first image's shape the estimate expects per band: `length // step`,
      and at least one. */
  function ImagesPerBand(cfg: GridConfig, first: Dim): (k: int)
    requires cfg.numSplits > 0 && first.0 > 0 && first.1 > 0 && EstimateStep(cfg, first) != 0
    ensures k >= 1
  {
    var q := FloorDiv(BandLength(cfg.layout, cfg), EstimateStep(cfg, first));
    if q > 1 then q else 1
  }

  /** `calculate_required_images`: a rough number of images to sample so pages fill,
      `numSplits` bands of `ImagesPerBand` images, and at least 10. When the natural extent
      and the gap are both 0 the source divides by zero; that is `None` here. */
  function RequiredImages(cfg: GridConfig, first: Dim): (r: Option<int>)
    requires Valid(cfg) && first.0 > 0 && first.1 > 0
    ensures r.None? <==> EstimateStep(cfg, first) == 0
    ensures r.Some? ==> r.value >= 10 && r.value >= cfg.numSplits
    ensures r.Some? ==> r.value >= ImagesPerBand(cfg, first) * cfg.numSplits
  {
    if EstimateStep(cfg, first) == 0 then None
    else
      var perBand := ImagesPerBand(cfg, first);
      var perPage := perBand * cfg.numSplits;
      MulMonotone(1, perBand, cfg.numSplits);
      Some(if perPage > 10 then perPage else 10)
  }

  /** The greedy band from any start holds at least as many images as the estimate expects
      when every image has the first image's shape (or runs to the end of the input): the
      estimate never overstates what one band packs. */
  lemma ImagesPerBandFit(cfg: GridConfig, first: Dim, dims: seq<Dim>, start: nat)
    requires Workable(cfg.layout, cfg) && first.0 > 0 && first.1 > 0 && EstimateStep(cfg, first) != 0
    requires forall i :: 0 <= i < |dims| ==> dims[i] == first
    requires start < |dims|
    ensures var e := BandEnd(BandNaturals(cfg.layout, cfg, dims), BandLength(cfg.layout, cfg), cfg.gap, start);
            e >= start + ImagesPerBand(cfg, first) || e == |dims|
  {
    var mode, g := cfg.layout, cfg.gap;
    var length := BandLength(mode, cfg);
    var ns := BandNaturals(mode, cfg, dims);
    var n := NaturalExtent(mode, BandThickness(mode, cfg), first);
    var k := ImagesPerBand(cfg, first);
    BandSlotFits(mode, cfg, 0);
    NaturalsBounds(mode, BandThickness(mode, cfg), [first]);
    assert Naturals(mode, BandThickness(mode, cfg), [first])[0] == n;
    assert forall i :: 0 <= i < |ns| ==> ns[i] == n;
    var e := BandEnd(ns, length, g, start);
    if e < start + k && e < |dims| {
      // The item at `e` is refused, yet a band of `e - start + 1 <= k` such items fits.
      var c := e - start + 1;
      SumUniform(ns[start..e + 1], n);
      var q := FloorDiv(length, n + g);
      assert k == q && q * (n + g) <= length;
      UniformRunFits(c, q, n, g, length);
      assert Admits(ns, length, g, start, e);
      assert false;
    }
  }

  /** Every placement of a band has its free-axis size within a configured cap. */
  lemma BandCap(mode: LayoutMode, cfg: GridConfig, dims: seq<Dim>, b: Band, r: int)
    requires Valid(cfg) && Measurable(dims) && b.start <= b.end <= |dims| && cfg.maxSize.Some?
    ensures forall j :: 0 <= j < |BandPlacements(mode, cfg, dims, b, r)| ==>
              Extent(mode, BandPlacements(mode, cfg, dims, b, r)[j]) <= cfg.maxSize.value
  {
    var ps := BandPlacements(mode, cfg, dims, b, r);
    var cs := BandExtents(mode, dims[b.start..b.end], BandLength(mode, cfg), BandThickness(mode, cfg), cfg.gap, cfg.maxSize);
    forall j | 0 <= j < |ps| ensures Extent(mode, ps[j]) <= cfg.maxSize.value {
      assert Extent(mode, ps[j]) == cs[j];
    }
  }

  lemma {:induction false} PageCap(mode: LayoutMode, cfg: GridConfig, dims: seq<Dim>, bands: seq<Band>, r: int)
    requires Valid(cfg) && Measurable(dims) && BandsWithin(bands, |dims|) && cfg.maxSize.Some?
    ensures forall j :: 0 <= j < |PagePlacements(mode, cfg, dims, bands, r)| ==>
              Extent(mode, PagePlacements(mode, cfg, dims, bands, r)[j]) <= cfg.maxSize.value
    decreases |bands|
  {
    if |bands| > 0 {
      BandCap(mode, cfg, dims, bands[0], r);
      assert BandsWithin(bands[1..], |dims|);
      PageCap(mode, cfg, dims, bands[1..], r + 1);
    }
  }

  /** A configured `max_size` bounds the free-axis size of every placement, for every
      valid configuration: the clamp is applied to each image after justification. */
  lemma LayoutCap(mode: LayoutMode, cfg: GridConfig, dims: seq<Dim>)
    requires Valid(cfg) && Measurable(dims)
    ensures cfg.maxSize.Some? ==>
              forall p, q :: 0 <= p < |LayoutAxis(mode, cfg, dims).0| && 0 <= q < |LayoutAxis(mode, cfg, dims).0[p]| ==>
                Extent(mode, LayoutAxis(mode, cfg, dims).0[p][q]) <= cfg.maxSize.value
  {
    if cfg.maxSize.Some? {
      var pages := LayoutAxis(mode, cfg, dims).0;
      var chunks := LayoutBands(mode, cfg, dims);
      forall p | 0 <= p < |pages|
        ensures forall q :: 0 <= q < |pages[p]| ==> Extent(mode, pages[p][q]) <= cfg.maxSize.value
      {
        PageCap(mode, cfg, dims, chunks[p], 0);
      }
    }
  }

  /** When the bands have room across the canvas, every placement lies inside it. */
  lemma LayoutInCanvas(mode: LayoutMode, cfg: GridConfig, dims: seq<Dim>)
    requires Valid(cfg) && Measurable(dims)
    ensures Workable(mode, cfg) ==>
              forall p, q :: 0 <= p < |LayoutAxis(mode, cfg, dims).0| && 0 <= q < |LayoutAxis(mode, cfg, dims).0[p]| ==>
                InCanvas(cfg, LayoutAxis(mode, cfg, dims).0[p][q])
  {
    if Workable(mode, cfg) {
      LayoutGeometry(mode, cfg, dims);
    }
  }

}

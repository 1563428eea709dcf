/** A worked example of the row layout: a 1920x1080 canvas with three rows per page and
    no gap, filled with ten 1600x1200 (4:3) images. Rows are 360 pixels high, each image
    is 480 pixels wide at that height, so four fit a row exactly and a fifth would
    overflow; the ten images make rows of four, four and two on a single page, and the
    last row of two is stretched to 960 pixels per image. */
module Scenario {
  import opened Wrappers
  import opened Config
  import opened Arith
  import opened Bands
  import opened BandPlacement
  import opened Layout

  function TenImagesConfig(): GridConfig
  {
    GridConfig(1920, 1080, Horizontal, 3, 0, None)
  }

  function TenImages(): seq<Dim>
  {
    seq(10, _ => (1600, 1200))
  }

  /** Starting at `start`, a run of items of natural width 480 ends after four items or at
      the end of the input. */
  lemma UniformBandEnd(ns: seq<int>, start: nat, e: nat)
    requires forall i :: 0 <= i < |ns| ==> ns[i] == 480
    requires start < |ns| && e == if start + 4 <= |ns| then start + 4 else |ns|
    ensures BandEnd(ns, 1920, 0, start) == e
  {
    forall m | start <= m < e
      ensures Admits(ns, 1920, 0, start, m)
    {
      SumUniform(ns[start..m + 1], 480);
    }
    if e < |ns| {
      SumUniform(ns[start..e + 1], 480);
      assert !Admits(ns, 1920, 0, start, e);
    }
    BandEndUnique(ns, 1920, 0, start, e);
  }

  /** The ten images form rows of four, four and two, all on one page. */
  lemma TenImagesLayout()
    ensures Valid(TenImagesConfig()) && Measurable(TenImages())
    ensures AllBands(Horizontal, TenImagesConfig(), TenImages()) == [Band(0, 4), Band(4, 8), Band(8, 10)]
    ensures CalculateLayoutHorizontal(TenImagesConfig(), TenImages()).1 == 1
  {
    var cfg := TenImagesConfig();
    var dims := TenImages();
    assert BandThickness(Horizontal, cfg) == 360;
    assert NaturalExtent(Horizontal, 360, (1600, 1200)) == 480;
    var ns := BandNaturals(Horizontal, cfg, dims);
    assert forall i :: 0 <= i < |ns| ==> ns[i] == 480;
    UniformBandEnd(ns, 0, 4);
    UniformBandEnd(ns, 4, 8);
    UniformBandEnd(ns, 8, 10);
    assert Partition(ns, 1920, 0, 10) == [];
    assert Partition(ns, 1920, 0, 8) == [Band(8, 10)];
    assert Partition(ns, 1920, 0, 4) == [Band(4, 8), Band(8, 10)];
    assert Partition(ns, 1920, 0, 0) == [Band(0, 4), Band(4, 8), Band(8, 10)];
    var bands := AllBands(Horizontal, cfg, dims);
    var chunks := Paginate(bands, 3);
    assert |chunks| == 1 by {
      assert |Flatten(chunks)| == 3;
    }
  }

  /** The two images of the third row, placed in slot 2. */
  lemma ThirdRow()
    ensures BandPlacements(Horizontal, TenImagesConfig(), TenImages(), Band(8, 10), 2)
            == [ImagePlacement(8, 0, 720, 960, 360), ImagePlacement(9, 960, 720, 960, 360)]
  {
    var cfg := TenImagesConfig();
    var last := TenImages()[8..10];
    assert BandThickness(Horizontal, cfg) == 360;
    assert Naturals(Horizontal, 360, last) == [480, 480];
    assert Scale(480, 1920, 960) == 960;
    assert BandExtents(Horizontal, last, 1920, 360, 0, None) == [960, 960];
    assert BandOffset(Horizontal, cfg, 2) == 720;
  }

  /** A page's second and third rows, in slots 1 and 2. */
  lemma LastTwoRows(bands: seq<Band>)
    requires bands == [Band(4, 8), Band(8, 10)]
    ensures Measurable(TenImages()) && BandsWithin(bands, 10)
    ensures PagePlacements(Horizontal, TenImagesConfig(), TenImages(), bands, 1)
            == BandPlacements(Horizontal, TenImagesConfig(), TenImages(), Band(4, 8), 1)
             + BandPlacements(Horizontal, TenImagesConfig(), TenImages(), Band(8, 10), 2)
  {
    var cfg := TenImagesConfig();
    var dims := TenImages();
    assert bands[1..][1..] == [];
    assert PagePlacements(Horizontal, cfg, dims, bands[1..][1..], 3) == [];
  }

  /** The page holding all three rows, read at the third row. */
  lemma ThreeRowPage(bands: seq<Band>)
    requires bands == [Band(0, 4), Band(4, 8), Band(8, 10)]
    ensures Measurable(TenImages()) && BandsWithin(bands, 10)
    ensures |PagePlacements(Horizontal, TenImagesConfig(), TenImages(), bands, 0)| == 10
    ensures PagePlacements(Horizontal, TenImagesConfig(), TenImages(), bands, 0)[8] == ImagePlacement(8, 0, 720, 960, 360)
    ensures PagePlacements(Horizontal, TenImagesConfig(), TenImages(), bands, 0)[9] == ImagePlacement(9, 960, 720, 960, 360)
  {
    LastTwoRows(bands[1..]);
    ThirdRow();
  }

  /** The last row on the page: each of its two images is 960 pixels wide and 360 high,
      720 pixels down at the top of the third row, the second starting where the first
      ends. */
  lemma TenImagesLastRow()
    ensures |CalculateLayoutHorizontal(TenImagesConfig(), TenImages()).0| == 1
    ensures |CalculateLayoutHorizontal(TenImagesConfig(), TenImages()).0[0]| == 10
    ensures CalculateLayoutHorizontal(TenImagesConfig(), TenImages()).0[0][8] == ImagePlacement(8, 0, 720, 960, 360)
    ensures CalculateLayoutHorizontal(TenImagesConfig(), TenImages()).0[0][9] == ImagePlacement(9, 960, 720, 960, 360)
  {
    var cfg := TenImagesConfig();
    var dims := TenImages();
    TenImagesLayout();
    var bands := AllBands(Horizontal, cfg, dims);
    var chunks := LayoutBands(Horizontal, cfg, dims);
    assert chunks == [bands] by {
      assert |Flatten(chunks)| == 3;
    }
    ThreeRowPage(bands);
    var pages := CalculateLayoutHorizontal(cfg, dims).0;
    assert pages == PagesOf(Horizontal, cfg, dims, chunks);
    assert pages[0] == PagePlacements(Horizontal, cfg, dims, bands, 0);
  }

  /** Three 1400x1000 (7:5) images followed by one 409x360 image. */
  function BoundaryImages(): seq<Dim>
  {
    [(1400, 1000), (1400, 1000), (1400, 1000), (409, 360)]
  }

  /** On the same canvas, at a row height of 360, the exact natural widths are 504, 504,
      504 and 409. They sum to 1921, one more than the canvas, so the fourth image starts
      a second row. Here `360 * 1400 / 1000` is exactly an integer; a floating-point
      evaluation of the same width can land just below it and truncate to 503, and then
      all four images would share one row. */
  lemma BoundaryBands()
    ensures Measurable(BoundaryImages())
    ensures BandNaturals(Horizontal, TenImagesConfig(), BoundaryImages()) == [504, 504, 504, 409]
    ensures AllBands(Horizontal, TenImagesConfig(), BoundaryImages()) == [Band(0, 3), Band(3, 4)]
  {
    var cfg := TenImagesConfig();
    var dims := BoundaryImages();
    assert BandThickness(Horizontal, cfg) == 360;
    assert NaturalExtent(Horizontal, 360, (1400, 1000)) == 504;
    assert NaturalExtent(Horizontal, 360, (409, 360)) == 409;
    var ns := BandNaturals(Horizontal, cfg, dims);
    assert ns == [504, 504, 504, 409];
    forall m | 0 <= m < 3
      ensures Admits(ns, 1920, 0, 0, m)
    {
      assert ns[0..m + 1] == [504, 504, 504][..m + 1];
    }
    assert ns[0..4] == [504, 504, 504, 409];
    assert !Admits(ns, 1920, 0, 0, 3);
    BandEndUnique(ns, 1920, 0, 0, 3);
    BandEndUnique(ns, 1920, 0, 3, 4);
    assert Partition(ns, 1920, 0, 4) == [];
    assert Partition(ns, 1920, 0, 3) == [Band(3, 4)];
  }
}

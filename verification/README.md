# Justified-grid collage layout, modelled in Dafny

This project models the layout engine of an image-grid collage tool and the
configuration check it depends on.

The engine takes a configuration and an ordered list of image sizes `(width, height)`:

- It cuts the canvas into `num_splits` bands of fixed thickness. Bands are rows in
  HORIZONTAL mode and columns in VERTICAL mode.
- It packs images greedily, in input order, into a band until the next one would overflow.
- It scales each band's images so that the band fills the canvas along its length, then
  clamps each image to an optional `max_size`.
- It assigns every image a pixel rectangle (`ImagePlacement`).
- It groups bands into pages of at most `num_splits` bands.

The VERTICAL routine mirrors the HORIZONTAL one with the axes swapped. The model has one
engine parameterised by `LayoutMode`, written in band coordinates:

- along: x for rows, y for columns;
- across: the band's offset on the canvas;
- extent: the free-axis size;
- thickness: the band's size.

`BandPlacement.Orient` maps band coordinates back to `x`, `y`, `width` and `height`.

The layout has two descriptions, and they are proved equal:

- a reference definition: greedy bands (`Bands.Partition`), grouped into pages
  (`Bands.Paginate`) and placed (`Layout.LayoutAxis`);
- the source's nested loops, written loop for loop (`LayoutLoop.CalculateLayoutAxis`).

Every property proved of the reference layout therefore holds of the loop version.

The source uses floating point for `w / h` and for the scale factor. The model computes
these exactly in integers:

- natural extent: `int(thickness * along / across)`;
- justified extent: `int(natural * available / total)`.

Python's `int()` truncates toward zero (`Arith.TruncDiv`), and `//` rounds toward negative
infinity (`Arith.FloorDiv`).

Modules:

| file | module | contents |
|---|---|---|
| wrappers.dfy | Wrappers | `Option`, `Result` |
| config.dfy | Config | `LayoutMode`, `GridConfig`, validation |
| arith.dfy | Arith | sums, Python's integer division and `int()`, index ranges, flattening |
| bands.dfy | Bands | greedy band formation, partition of the input, pagination |
| band_placement.dfy | BandPlacement | `ImagePlacement`, natural extents, justification, clamp, positions within a band |
| layout.dfy | Layout | band thickness, the reference layout, its coverage, page and geometry properties, dispatch, the required-images estimate |
| layout_loop.dfy | LayoutLoop | the source's loops, proved equal to the reference layout |
| scenario.dfy | Scenario | a worked example: ten 4:3 images on a 1920x1080 canvas |

## Model

| member | source | states |
|---|---|---|
| Config.NewGridConfig | config.py:25-34 | Construction succeeds exactly when the canvas is positive in both dimensions, `num_splits > 0`, `gap >= 0`, and `max_size` is absent or positive; on success the configuration holds the given fields. On failure the error names a violated check, and no check tested before it is violated, so the first failing check in source order decides the error. |
| Bands.Extend | layout.py:57-74 | The inner collection loop stops at or after where it starts and within the input. Every item it takes was admitted: it is the band's first item, or the natural extents so far plus one gap per item already in the band fit the canvas length. The item it stops at, if any, is not admitted. |
| Bands.BandEnd | layout.py:52-80 | A band is never empty and ends inside the input. For a band of k > 1 items, the natural extents plus `(k-1)*gap` fit the length. The band ends only at the first item whose addition would overflow, or at the end of the input, so the forced-inclusion branch never fires. |
| Bands.OversizedItemAlone | layout.py:64-74 | An image whose natural extent alone exceeds the canvas length still gets a band, and that band holds it alone. |
| Bands.PartitionBands | layout.py:43-80 | The greedy bands cover the input from the start index to the end, one after another, each beginning where the previous one ended. Each band ends where the greedy scan begun at its first item ends it. |
| Bands.Paginate | layout.py:45-50 | Grouping bands into pages loses and reorders nothing. No page is empty, each holds at most `num_splits` bands, and every page but the last holds exactly `num_splits`. |
| Bands.PaginateFullPages | layout.py:45-50 | Full pages followed by a non-empty, not-over-full last page paginate back into exactly those pages, which is how the loop's pages arise. |
| BandPlacement.Orient | layout.py:145-151 | A placement built from band coordinates reads them back. In rows, along/across/extent/thickness are x/y/width/height; in columns they are y/x/height/width. |
| BandPlacement.NaturalsBounds | layout.py:123-128 | At a non-negative band thickness, each image's natural extent is non-negative. It is the floor of the exact scaled size: `natural * across <= thickness * along < (natural + 1) * across`. |
| BandPlacement.JustifyScaledSum | layout.py:132-138 | Truncating each scaled extent loses less than one unit per item: the justified sum times the natural total is at most the natural sum times `available`, and exceeds it less one total per item. |
| BandPlacement.JustifiedTotal | layout.py:119-138 | The justified extents are non-negative and, when the natural total is positive, never sum to more than `available`. When the natural total is 0 the scale factor is 1 and the extents stay natural. |
| BandPlacement.JustifiedNearlyFills | layout.py:132-138 | With a positive natural total, the justified extents fall short of `available` by less than one pixel per item. |
| BandPlacement.Clamp | layout.py:141-143 | The cap only ever shortens an item. The result is the extent itself, or the cap when the extent exceeds it; it is at most any positive cap. A non-zero cap smaller than the extent, even a negative one, replaces it exactly. A cap of 0 leaves the extent unchanged, because 0 is falsy in the source. |
| BandPlacement.Positions | layout.py:136-153 | Along a band, the first item starts at the offset and each next one starts after the previous item's final extent and a gap. Equivalently, item j starts after the j extents before it and j gaps. |
| BandPlacement.LoneItemFillsLength | layout.py:119-138 | A band holding one image with positive natural extent stretches it to exactly the canvas length, and only the cap can shorten it. |
| BandPlacement.PlaceBand | layout.py:104-155 | Each placement keeps its source index and order, sits at the band's offset across the canvas, and has the band's thickness. Its extent is the band's final (justified, clamped) extent. The first starts at the band origin, and each next one after the previous placement and a gap. |
| BandPlacement.PlaceBandPositions | layout.py:141-153 | An item's position depends only on the final extents of the items before it, so clamping an item never moves it. |
| BandPlacement.BandExtentsFit | layout.py:119-143 | For a band that passed the greedy fit, the final extents are non-negative and respect the cap, and together with the gaps they fit the canvas length. |
| BandPlacement.PlaceBandWithinLength | layout.py:135-153 | Every placement of such a band lies between the band origin and origin plus length, with a non-negative extent within the cap. |
| Layout.BandThickness | layout.py:39-41 | The fixed band thickness is the largest value such that `num_splits` bands fit across the canvas less the `num_splits - 1` gaps between them. |
| Layout.AllBandsGreedy | layout.py:43-80 | The greedy bands of the whole input run from the first image to the last, each formed by the greedy scan. |
| Layout.LayoutBandsGreedy | layout.py:43-80 | Every band on every page is a band the greedy scan forms. |
| Layout.PageIndices | layout.py:82-97 | The placements of consecutive bands carry exactly the indices those bands cover, in order. |
| Layout.PagesIndices | layout.py:43-102 | The placements of consecutive pages carry exactly the indices their bands cover, in order. |
| Layout.LayoutCoversInput | layout.py:43-102 | Reading `image_idx` over all pages, page by page and placement by placement, gives `0, 1, ..., n-1`: every input is placed exactly once, in order. |
| Layout.LayoutPageShape | layout.py:43-102 | The returned count equals the number of pages. Empty input, and only empty input, gives no page. Pages hold the greedy bands in order, at most `num_splits` per page and exactly `num_splits` on every page but the last. |
| Layout.LayoutPagesNonEmpty | layout.py:95-100 | No emitted page is empty: every page holds at least one placement. |
| Layout.BandSlotFits | layout.py:39-41 | Band r, for `r < num_splits`, lies across the canvas: its offset `r*(thickness+gap)` is non-negative and offset plus thickness is within the canvas. |
| Layout.BandGeometry | layout.py:82-97 | Every placement of a greedy band in slot r is inside the canvas, has the band thickness, respects the cap, and sits across the canvas at slot r's offset `r*(thickness+gap)`. |
| Layout.PageGeometry | layout.py:82-97 | Every placement of a page's bands is inside the canvas, has the band thickness, respects the cap, and sits in one of the `num_splits` band slots. |
| Layout.PageSlots | layout.py:84-97 | On a page whose first band is in slot r, every placement whose image belongs to the page's band q sits across the canvas at `(r+q)*(thickness+gap)`: each band advances the offset by one thickness and one gap. |
| Layout.LayoutSlots | layout.py:43-97 | The offset resets on every page: in every page, each placement whose image belongs to the page's band q sits at `q*(fixed_row_height+gap)` (columns: `fixed_col_width`). |
| Layout.LayoutGeometry | layout.py:33-102 | Over the whole layout, every placement is inside the canvas, has the fixed thickness, respects the cap, and sits in band slot `r*(thickness+gap)` with `r < num_splits`. Each page's first placement is at the origin, because the band offset resets on every new page. |
| Layout.HorizontalRows | layout.py:20-155 | In rows: `height == fixed_row_height`, `y == r*(fixed_row_height+gap)` for some `r < num_splits`, the rectangle is inside the canvas, and `width <= max_size` when set. |
| Layout.VerticalColumns | layout.py:158-292 | In columns, the same with axes swapped: `width == fixed_col_width`, `x == r*(fixed_col_width+gap)`, inside the canvas, and `height <= max_size`. |
| Layout.BandCap | layout.py:141-143 | A set `max_size` bounds the free-axis size of every placement of one band. |
| Layout.LayoutCap | layout.py:141-143 | For every valid configuration, a set `max_size` bounds the free-axis size of every placement. |
| Layout.LayoutInCanvas | layout.py:33-102 | When the bands have room across the canvas, every placement lies inside it. |
| Layout.CalculateLayout | layout.py:294-305 | Dispatch returns the layout along the configured mode's axis. Either way: every input is placed once in order, the count is the number of pages, and no page is empty. Every free-axis size is within a set cap, and placements lie inside the canvas whenever the bands have room. |
| Layout.ImagesPerBand | layout.py:324 | The estimate of images per band is at least 1. |
| Layout.RequiredImages | layout.py:307-337 | The estimate is undefined, because the source divides by zero, exactly when the first image's natural extent plus the gap is 0. Otherwise it is at least 10, at least `num_splits`, and at least the per-band estimate times `num_splits`, one full page of images. |
| Layout.ImagesPerBandFit | layout.py:317-326 | The per-band estimate never overstates the greedy packer: with images all of the first image's shape, a band holds at least that many images, or runs to the end of the input. |
| LayoutLoop.CollectBand | layout.py:52-80 | The source's inner loop returns exactly the images `start .. end-1` and their indices, where `end` is the greedy band end; the band is never empty. |
| LayoutLoop.EmitPageStep | layout.py:45-50 | Emitting a full page keeps the outer loop's invariant: the emitted pages gain the current page, and a new page begins at band slot 0. |
| LayoutLoop.AddBandStep | layout.py:82-97 | Adding the next greedy band to a page with a free slot keeps the invariant: the band's placements go into the next slot, and the band offset advances by `thickness + gap`. |
| LayoutLoop.LoopFinish | layout.py:99-102 | When every image is placed, the emitted pages plus the current page, if it holds a placement, are the reference layout. |
| LayoutLoop.LayoutStep | layout.py:43-97 | One pass of the outer loop advances past at least one image and keeps the invariant. |
| LayoutLoop.CalculateLayoutAxis | layout.py:20-102 | `calculate_layout_horizontal`, and for VERTICAL `calculate_layout_vertical`, computes exactly the reference layout and its page count. |
| Scenario.UniformBandEnd | layout.py:57-74 | With images 480 wide at the band height on a 1920-wide canvas and no gap, a band takes four images, or the rest of the input when fewer remain. |
| Scenario.TenImagesLayout | layout.py:20-102 | Ten 1600x1200 images on a 1920x1080 canvas with three rows and no gap form rows of 4, 4 and 2 on one page. |
| Scenario.TenImagesLastRow | layout.py:20-155 | In that layout the one page holds all ten placements; the last row's two images are placed at (0, 720) and (960, 720), each 960x360. |
| Scenario.BoundaryBands | layout.py:57-74 | Three 1400x1000 images and one 409x360 image on that canvas have exact natural widths 504, 504, 504 and 409, which overflow 1920 by one pixel, so the model puts the fourth image in a second row. |

The VERTICAL routine (layout.py:158-292) is covered by the same members as the
HORIZONTAL one, with `mode == Vertical`.

## Left out

- main.py, image_processor.py and video_processor.py are not part of this model. They hold argument parsing, file and video I/O, image decoding, resizing and saving, and only consume the placements.
- The `GridConfig` fields `input_path`, `output_dir` and `background_color` are not modelled; the engine never reads them.
- Floating point: `w / h` and the scale factor are computed exactly in integers. Where an exact product is an integer, the source's float evaluation can land just below it and truncate one pixel lower. Natural widths feed the greedy overflow test, so this can move a band boundary, which changes the bands, the page count and every later placement, not only pixel sizes. `Scenario.BoundaryBands` shows such an input: the model starts a second row where the source's floats fit all four images in one.
- Images must have positive width and height (`Measurable`). A zero height divides by zero in the source. In column mode so does a zero width. In row mode the source would place a zero-width image; the model excludes it. Sizes come from decoded images and are positive.
- Layout.LayoutGeometry: it, `Layout.HorizontalRows` and `Layout.VerticalColumns` are proved when `canvas - (num_splits-1)*gap` across the bands is not negative (at 0 every band is 0 thick). The configuration check does not reject a negative value; there the source produces bands of negative thickness whose offsets run past the canvas, and the geometry is not stated for them. The layout itself, its coverage, its page structure and its band offsets are proved for every valid configuration.
- Layout.RequiredImages: states bounds on the estimate, not its exact value. The estimate is a heuristic for how many video frames to sample.
- The forced-inclusion branch (layout.py:76-80) is not modelled as code: the inner loop never leaves a band empty, which `LayoutLoop.CollectBand` proves.

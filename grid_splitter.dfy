/**
 * The grid splitter: a photo of many tiles on a plain background is turned
 * into an edge image, the regions of that image that look like single tiles
 * are cut out, the user names the shape of each, and the named tiles are
 * added to the training data in one batch.
 */
module GridSplitter {

  import opened Wrappers
  import opened ImageProcessing
  import opened TrainingData
  import opened Numbers

  // ---------------------------------------------------------------------------
  // Edge detection
  // ---------------------------------------------------------------------------

  /** A pixel with all eight neighbours inside the image: the Sobel loops visit exactly these. */
  predicate Interior(w: nat, h: nat, p: Pixel) {
    1 <= p.0 < w - 1 && 1 <= p.1 < h - 1
  }

  /** The gray level of a pixel, read from its first byte as the Sobel loops read it. */
  function Gray(g: seq<Byte>, w: nat, h: nat, x: int, y: int): int
    requires IsImage(g, w, h) && InBounds(w, h, (x, y))
  {
    RedAt(g, w, h, (x, y)) as int
  }

  /** The horizontal gradient: the 3×3 kernel (-1 0 1; -2 0 2; -1 0 1). */
  function Gx(g: seq<Byte>, w: nat, h: nat, p: Pixel): int
    requires IsImage(g, w, h) && Interior(w, h, p)
  {
    var (x, y) := p;
    - Gray(g, w, h, x - 1, y - 1) + Gray(g, w, h, x + 1, y - 1)
    - 2 * Gray(g, w, h, x - 1, y) + 2 * Gray(g, w, h, x + 1, y)
    - Gray(g, w, h, x - 1, y + 1) + Gray(g, w, h, x + 1, y + 1)
  }

  /** The vertical gradient: the 3×3 kernel (-1 -2 -1; 0 0 0; 1 2 1). */
  function Gy(g: seq<Byte>, w: nat, h: nat, p: Pixel): int
    requires IsImage(g, w, h) && Interior(w, h, p)
  {
    var (x, y) := p;
    - Gray(g, w, h, x - 1, y - 1) - 2 * Gray(g, w, h, x, y - 1) - Gray(g, w, h, x + 1, y - 1)
    + Gray(g, w, h, x - 1, y + 1) + 2 * Gray(g, w, h, x, y + 1) + Gray(g, w, h, x + 1, y + 1)
  }

  /** The gradient magnitude above which a pixel is an edge. */
  const EdgeThreshold: nat := 50

  /**
   * `Math.sqrt(gx * gx + gy * gy) > 50`. The square root of an integer is
   * correctly rounded and 50 is exact, so the comparison of the squares is
   * the same test.
   */
  predicate StrongEdge(g: seq<Byte>, w: nat, h: nat, p: Pixel)
    requires IsImage(g, w, h) && Interior(w, h, p)
  {
    var gx := Gx(g, w, h, p);
    var gy := Gy(g, w, h, p);
    gx * gx + gy * gy > EdgeThreshold * EdgeThreshold
  }

  /** Byte `c` of pixel `p`: `(y * width + x) * 4 + c`. */
  function ByteAt(w: nat, p: Pixel, c: int): int {
    4 * Index(w, p) + c
  }

  lemma ByteAtInRange(w: nat, h: nat, p: Pixel, c: int)
    requires InBounds(w, h, p) && 0 <= c < 4
    ensures 0 <= ByteAt(w, p, c) < 4 * (w * h)
    ensures ByteAt(w, p, c) % 4 == c
  {
    IndexInRange(w, h, p);
  }

  /** Distinct bytes of distinct pixels sit at distinct positions. */
  lemma ByteAtInjective(w: nat, h: nat, p: Pixel, c: int, q: Pixel, d: int)
    requires InBounds(w, h, p) && InBounds(w, h, q) && 0 <= c < 4 && 0 <= d < 4
    ensures ByteAt(w, p, c) == ByteAt(w, q, d) <==> p == q && c == d
  {
    if ByteAt(w, p, c) == ByteAt(w, q, d) {
      assert Index(w, p) == Index(w, q);
      IndexInjective(w, h, p, q);
    }
  }

  /** Byte `c` of pixel `p` of an image buffer. */
  function ChannelAt(e: seq<Byte>, w: nat, h: nat, p: Pixel, c: int): Byte
    requires IsImage(e, w, h) && InBounds(w, h, p) && 0 <= c < 4
  {
    ByteAtInRange(w, h, p, c);
    e[ByteAt(w, p, c)]
  }

  /**
   * What the Sobel loops leave in the zero-filled `edges` buffer: an interior
   * pixel gets 255 in its three colour bytes when it is an edge and 0
   * otherwise, and alpha 255; a border pixel is never written.
   */
  function SobelByte(g: seq<Byte>, w: nat, h: nat, p: Pixel, c: int): Byte
    requires IsImage(g, w, h) && InBounds(w, h, p) && 0 <= c < 4
  {
    if !Interior(w, h, p) then 0
    else if c == 3 || StrongEdge(g, w, h, p) then 255
    else 0
  }

  /** The inversion pass: the colour bytes of every pixel are replaced by 255 minus their value, alpha is kept. */
  function Inverted(e: seq<Byte>, k: int): Byte
    requires 0 <= k < |e|
  {
    if k % 4 == 3 then e[k] else 255 - e[k]
  }

  /** Byte `c` of pixel `p` of the image `preprocessForTileDetection` returns. */
  function EdgeByte(g: seq<Byte>, w: nat, h: nat, p: Pixel, c: int): Byte
    requires IsImage(g, w, h) && InBounds(w, h, p) && 0 <= c < 4
  {
    if c == 3 then SobelByte(g, w, h, p, c) else 255 - SobelByte(g, w, h, p, c)
  }

  /**
   * The values the edge image can take: an interior pixel is black exactly
   * on an edge and white elsewhere, opaque either way; a border pixel is
   * white and fully transparent.
   */
  lemma EdgeByteValues(g: seq<Byte>, w: nat, h: nat, p: Pixel)
    requires IsImage(g, w, h) && InBounds(w, h, p)
    ensures Interior(w, h, p) ==> EdgeByte(g, w, h, p, 3) == 255
    ensures Interior(w, h, p) ==> forall c | 0 <= c < 3 ::
              (EdgeByte(g, w, h, p, c) == 0 <==> StrongEdge(g, w, h, p))
              && (EdgeByte(g, w, h, p, c) == 255 <==> !StrongEdge(g, w, h, p))
    ensures !Interior(w, h, p) ==> EdgeByte(g, w, h, p, 3) == 0
    ensures !Interior(w, h, p) ==> forall c | 0 <= c < 3 :: EdgeByte(g, w, h, p, c) == 255
  {
  }

  /** The bytes of the pixels the Sobel loops passed hold their `SobelByte`; all others are still 0. */
  ghost predicate SobelDone(g: seq<Byte>, w: nat, h: nat, e: seq<Byte>, x: int, y: int)
    requires IsImage(g, w, h)
  {
    && |e| == |g|
    && forall p, c | InBounds(w, h, p) && 0 <= c < 4 ::
         ChannelAt(e, w, h, p, c) == if ScannedBefore(p, x, y) then SobelByte(g, w, h, p, c) else 0
  }

  lemma SobelStart(g: seq<Byte>, w: nat, h: nat, e: seq<Byte>)
    requires IsImage(g, w, h) && |e| == |g|
    requires forall k | 0 <= k < |e| :: e[k] == 0
    ensures SobelDone(g, w, h, e, 1, 1)
  {
    forall p, c | InBounds(w, h, p) && 0 <= c < 4
      ensures ChannelAt(e, w, h, p, c) == if ScannedBefore(p, 1, 1) then SobelByte(g, w, h, p, c) else 0
    {
      ByteAtInRange(w, h, p, c);
    }
  }

  /** The frame of one pixel's write: the bytes outside `[base, base + 4)` are as they were, those inside hold `SobelByte`. */
  ghost predicate WrotePixel(g: seq<Byte>, w: nat, h: nat, e: seq<Byte>, e2: seq<Byte>, x: int, y: int)
    requires IsImage(g, w, h) && Interior(w, h, (x, y))
  {
    var base := ByteAt(w, (x, y), 0);
    && |e2| == |e|
    && (forall k | 0 <= k < |e| && !(base <= k < base + 4) :: e2[k] == e[k])
    && (forall c | 0 <= c < 4 :: 0 <= base + c < |e2| && e2[base + c] == SobelByte(g, w, h, (x, y), c))
  }

  lemma SobelStepAt(g: seq<Byte>, w: nat, h: nat, e: seq<Byte>, e2: seq<Byte>, x: int, y: int, p: Pixel, c: int)
    requires IsImage(g, w, h) && Interior(w, h, (x, y)) && |e| == |g| && WrotePixel(g, w, h, e, e2, x, y)
    requires InBounds(w, h, p) && 0 <= c < 4
    requires ChannelAt(e, w, h, p, c) == if ScannedBefore(p, x, y) then SobelByte(g, w, h, p, c) else 0
    ensures ChannelAt(e2, w, h, p, c) == if ScannedBefore(p, x + 1, y) then SobelByte(g, w, h, p, c) else 0
  {
    var base := ByteAt(w, (x, y), 0);
    ByteAtInRange(w, h, p, c);
    var k := ByteAt(w, p, c);
    if p == (x, y) {
      assert k == base + c;
    } else {
      if base <= k < base + 4 {
        ByteAtInjective(w, h, p, c, (x, y), k - base);
      }
      assert e2[k] == e[k];
    }
  }

  /** Writing the four bytes of interior pixel `(x, y)` moves the scan one pixel on. */
  lemma SobelStep(g: seq<Byte>, w: nat, h: nat, e: seq<Byte>, e2: seq<Byte>, x: int, y: int)
    requires IsImage(g, w, h) && Interior(w, h, (x, y)) && SobelDone(g, w, h, e, x, y)
    requires WrotePixel(g, w, h, e, e2, x, y)
    ensures SobelDone(g, w, h, e2, x + 1, y)
  {
    forall p, c | InBounds(w, h, p) && 0 <= c < 4
      ensures ChannelAt(e2, w, h, p, c) == if ScannedBefore(p, x + 1, y) then SobelByte(g, w, h, p, c) else 0
    {
      SobelStepAt(g, w, h, e, e2, x, y, p, c);
    }
  }

  /** At the end of a row the scan continues with the first interior pixel of the next one. */
  lemma SobelRow(g: seq<Byte>, w: nat, h: nat, e: seq<Byte>, x: int, y: int)
    requires IsImage(g, w, h) && SobelDone(g, w, h, e, x, y) && x >= w - 1
    ensures SobelDone(g, w, h, e, 1, y + 1)
  {
    forall p, c | InBounds(w, h, p) && 0 <= c < 4
      ensures ChannelAt(e, w, h, p, c) == if ScannedBefore(p, 1, y + 1) then SobelByte(g, w, h, p, c) else 0
    {
      assert ChannelAt(e, w, h, p, c) == if ScannedBefore(p, x, y) then SobelByte(g, w, h, p, c) else 0;
    }
  }

  /** Past the last interior row every byte holds its `SobelByte`. */
  lemma SobelEnd(g: seq<Byte>, w: nat, h: nat, e: seq<Byte>, y: int)
    requires IsImage(g, w, h) && SobelDone(g, w, h, e, 1, y) && y >= h - 1
    ensures forall p, c | InBounds(w, h, p) && 0 <= c < 4 :: ChannelAt(e, w, h, p, c) == SobelByte(g, w, h, p, c)
  {
    forall p, c | InBounds(w, h, p) && 0 <= c < 4
      ensures ChannelAt(e, w, h, p, c) == SobelByte(g, w, h, p, c)
    {
      assert ChannelAt(e, w, h, p, c) == if ScannedBefore(p, 1, y) then SobelByte(g, w, h, p, c) else 0;
    }
  }

  /** The body of the inner Sobel loop: gradients, threshold, and the four bytes at `(y * width + x) * 4`. */
  method SobelPixel(g: seq<Byte>, w: nat, h: nat, edges: array<Byte>, x: int, y: int)
    requires IsImage(g, w, h) && Interior(w, h, (x, y)) && SobelDone(g, w, h, edges[..], x, y)
    modifies edges
    ensures SobelDone(g, w, h, edges[..], x + 1, y)
  {
    var idx := (y * w + x) * 4;
    assert idx == ByteAt(w, (x, y), 0);
    ByteAtInRange(w, h, (x, y), 3);
    var gx := Gx(g, w, h, (x, y));
    var gy := Gy(g, w, h, (x, y));
    var value: Byte := if gx * gx + gy * gy > EdgeThreshold * EdgeThreshold then 255 else 0;
    ghost var before := edges[..];
    edges[idx] := value;
    edges[idx + 1] := value;
    edges[idx + 2] := value;
    edges[idx + 3] := 255;
    SobelStep(g, w, h, before, edges[..], x, y);
  }

  /** The two Sobel loops over the interior of the image, writing into a new zero-filled buffer. */
  method SobelPass(g: seq<Byte>, w: nat, h: nat) returns (edges: array<Byte>)
    requires IsImage(g, w, h)
    ensures fresh(edges) && edges.Length == |g|
    ensures forall p, c | InBounds(w, h, p) && 0 <= c < 4 :: ChannelAt(edges[..], w, h, p, c) == SobelByte(g, w, h, p, c)
  {
    edges := new Byte[|g|](_ => 0);
    SobelStart(g, w, h, edges[..]);
    var y := 1;
    while y < h - 1
      invariant 1 <= y && (h >= 2 ==> y <= h - 1)
      invariant SobelDone(g, w, h, edges[..], 1, y)
    {
      var x := 1;
      while x < w - 1
        invariant 1 <= x && (w >= 2 ==> x <= w - 1)
        invariant SobelDone(g, w, h, edges[..], x, y)
      {
        SobelPixel(g, w, h, edges, x, y);
        x := x + 1;
      }
      SobelRow(g, w, h, edges[..], x, y);
      y := y + 1;
    }
    SobelEnd(g, w, h, edges[..], y);
  }

  /** The inversion loop, four bytes at a time, leaving every fourth (alpha) byte alone. */
  method Invert(edges: array<Byte>)
    requires edges.Length % 4 == 0
    modifies edges
    ensures forall k | 0 <= k < edges.Length :: edges[k] == Inverted(old(edges[..]), k)
  {
    ghost var e0 := edges[..];
    var i := 0;
    while i < edges.Length
      invariant 0 <= i <= edges.Length && i % 4 == 0
      invariant forall k | 0 <= k < i :: edges[k] == Inverted(e0, k)
      invariant forall k | i <= k < edges.Length :: edges[k] == e0[k]
    {
      assert i + 4 <= edges.Length && (i + 1) % 4 == 1 && (i + 2) % 4 == 2 && (i + 3) % 4 == 3;
      edges[i] := 255 - edges[i];
      edges[i + 1] := 255 - edges[i + 1];
      edges[i + 2] := 255 - edges[i + 2];
      i := i + 4;
    }
  }

  /**
   * `preprocessForTileDetection` on an image whose first byte per pixel is
   * already its gray level: the Sobel pass into a new buffer, then the
   * inversion of that buffer. The input buffer is only read.
   */
  method PreprocessForTileDetection(data: array<Byte>, w: nat, h: nat) returns (edges: array<Byte>)
    requires IsImage(data[..], w, h)
    ensures fresh(edges) && edges.Length == data.Length
    ensures forall p, c | InBounds(w, h, p) && 0 <= c < 4 ::
              ChannelAt(edges[..], w, h, p, c) == EdgeByte(data[..], w, h, p, c)
  {
    edges := SobelPass(data[..], w, h);
    ghost var e0 := edges[..];
    Invert(edges);
    forall p, c | InBounds(w, h, p) && 0 <= c < 4
      ensures ChannelAt(edges[..], w, h, p, c) == EdgeByte(data[..], w, h, p, c)
    {
      ByteAtInRange(w, h, p, c);
      assert ChannelAt(e0, w, h, p, c) == SobelByte(data[..], w, h, p, c);
    }
  }

  /**
   * The region finder, run on the edge image, takes exactly the pixels that
   * are not interior edge pixels: their first byte is 255, an edge's is 0.
   */
  lemma EdgeImageBright(g: seq<Byte>, e: seq<Byte>, w: nat, h: nat, p: Pixel)
    requires IsImage(g, w, h) && IsImage(e, w, h) && InBounds(w, h, p)
    requires ChannelAt(e, w, h, p, 0) == EdgeByte(g, w, h, p, 0)
    ensures RedAt(e, w, h, p) > 128 <==> !(Interior(w, h, p) && StrongEdge(g, w, h, p))
  {
    assert RedAt(e, w, h, p) == ChannelAt(e, w, h, p, 0);
  }

  // ---------------------------------------------------------------------------
  // Choosing and cutting out the tiles
  // ---------------------------------------------------------------------------

  /**
   * `width / height > 0.5 && width / height < 2.0` in floating point. The
   * quotient of two integers lies at least `1 / (2 * |height|)` away from 0.5
   * and 2 unless it equals them, so rounding cannot change these tests; a
   * zero height gives an infinity or NaN, which fails one of them.
   */
  predicate AspectInRange(width: int, height: int) {
    if height > 0 then 2 * width > height && width < 2 * height
    else if height < 0 then 2 * width < height && width > 2 * height
    else false
  }

  /** For the non-negative extents of a region the test says: neither side twice the other or more. */
  lemma AspectOfExtents(width: int, height: int)
    requires width >= 0 && height >= 0
    ensures AspectInRange(width, height) <==> height < 2 * width && width < 2 * height
  {
  }

  /**
   * The filter of `detectAndExtractTiles`: more than 1000 pixels, less than a
   * third of the canvas (`size < width * height / 3`, exact for integers),
   * and roughly square.
   */
  predicate KeepGridRegion(canvasW: nat, canvasH: nat, r: Region) {
    var size := |r.pixels|;
    && size > 1000
    && 3 * size < canvasW * canvasH
    && AspectInRange(r.bounds.maxX - r.bounds.minX, r.bounds.maxY - r.bounds.minY)
  }

  /** `regions.filter(...)`: the regions the filter keeps, in their order. */
  function GridCandidates(canvasW: nat, canvasH: nat, regions: seq<Region>): (kept: seq<Region>)
    ensures forall r | r in kept :: r in regions && KeepGridRegion(canvasW, canvasH, r)
    ensures forall r | r in regions && KeepGridRegion(canvasW, canvasH, r) :: r in kept
    ensures |kept| <= |regions|
  {
    if regions == [] then []
    else
      var init := regions[..|regions| - 1];
      var last := regions[|regions| - 1];
      assert regions == init + [last];
      GridCandidates(canvasW, canvasH, init) + if KeepGridRegion(canvasW, canvasH, last) then [last] else []
  }

  /** The margin left around a tile when it is cut out. */
  const GridPadding := 20

  /**
   * The crop of one tile. Unlike the crop of the move photos, the width is
   * the extent of the bounds plus twice the padding, whether or not the left
   * edge was clamped at 0.
   */
  function GridCrop(canvasW: nat, canvasH: nat, b: Bounds): (r: Rect)
    ensures 0 <= r.x && r.x + r.width <= canvasW
    ensures 0 <= r.y && r.y + r.height <= canvasH
    ensures b.minX - GridPadding <= r.x && r.width <= b.maxX - b.minX + 2 * GridPadding
    ensures b.minY - GridPadding <= r.y && r.height <= b.maxY - b.minY + 2 * GridPadding
    ensures 0 <= b.minX <= b.maxX < canvasW ==> r.width > 0 && r.x <= b.minX && b.maxX < r.x + r.width
    ensures 0 <= b.minY <= b.maxY < canvasH ==> r.height > 0 && r.y <= b.minY && b.maxY < r.y + r.height
  {
    var x := Max(0, b.minX - GridPadding);
    var y := Max(0, b.minY - GridPadding);
    Rect(x, y, Min(canvasW - x, b.maxX - b.minX + GridPadding * 2), Min(canvasH - y, b.maxY - b.minY + GridPadding * 2))
  }

  /** A cut-out tile: its JPEG data URL, the bounds and centre of its region, and the shape the user gave it. */
  datatype GridTile = GridTile(imageData: string, bounds: Bounds, position: (real, real), shape: Option<string>)

  /** The tile cut out for a kept region; `encodeCrop` stands for drawing that rectangle of the photo and `toDataURL`. */
  function ExtractTile(canvasW: nat, canvasH: nat, r: Region, encodeCrop: Rect -> string): GridTile {
    GridTile(encodeCrop(GridCrop(canvasW, canvasH, r.bounds)), r.bounds, (r.centerX, r.centerY), None)
  }

  /**
   * `detectAndExtractTiles` from the gray image on: the edge image, its
   * regions, the filter, and one cut-out tile per kept region, in filter
   * order.
   */
  method DetectAndExtractTiles(pixels: array<Byte>, w: nat, h: nat, encodeCrop: Rect -> string)
    returns (tiles: seq<GridTile>, ghost edges: seq<Byte>, ghost fills: seq<Region>, ghost kept: seq<Region>)
    requires IsImage(pixels[..], w, h)
    ensures IsImage(edges, w, h)
    ensures forall p, c | InBounds(w, h, p) && 0 <= c < 4 :: ChannelAt(edges, w, h, p, c) == EdgeByte(pixels[..], w, h, p, c)
    ensures Blobs(edges, w, h, fills)
    ensures kept == GridCandidates(w, h, LargeRegions(fills))
    ensures |tiles| == |kept|
    ensures forall i | 0 <= i < |kept| :: tiles[i] == ExtractTile(w, h, kept[i], encodeCrop)
  {
    var processed := PreprocessForTileDetection(pixels, w, h);
    edges := processed[..];
    var regions;
    regions, fills := FindConnectedRegions(processed[..], w, h);
    var validTiles := GridCandidates(w, h, regions);
    kept := validTiles;
    tiles := ExtractTiles(w, h, validTiles, encodeCrop);
  }

  /** The extraction loop: one cut-out tile per kept region, in order. */
  method ExtractTiles(w: nat, h: nat, validTiles: seq<Region>, encodeCrop: Rect -> string) returns (tiles: seq<GridTile>)
    ensures |tiles| == |validTiles|
    ensures forall i | 0 <= i < |validTiles| :: tiles[i] == ExtractTile(w, h, validTiles[i], encodeCrop)
  {
    tiles := [];
    for i := 0 to |validTiles|
      invariant |tiles| == i
      invariant forall j | 0 <= j < i :: tiles[j] == ExtractTile(w, h, validTiles[j], encodeCrop)
    {
      var tile := validTiles[i];
      var rect := GridCrop(w, h, tile.bounds);
      tiles := tiles + [GridTile(encodeCrop(rect), tile.bounds, (tile.centerX, tile.centerY), None)];
    }
  }

  /** Every tile cut out has no shape yet and comes from a region the filter accepts, cropped inside the canvas. */
  lemma ExtractedTiles(w: nat, h: nat, kept: seq<Region>, regions: seq<Region>, tiles: seq<GridTile>, encodeCrop: Rect -> string)
    requires kept == GridCandidates(w, h, regions) && |tiles| == |kept|
    requires forall i | 0 <= i < |kept| :: tiles[i] == ExtractTile(w, h, kept[i], encodeCrop)
    ensures forall i | 0 <= i < |tiles| :: tiles[i].shape == None && tiles[i].bounds == kept[i].bounds
    ensures forall i | 0 <= i < |tiles| :: kept[i] in regions && KeepGridRegion(w, h, kept[i])
  {
    forall i | 0 <= i < |tiles| ensures kept[i] in regions && KeepGridRegion(w, h, kept[i]) {
      assert kept[i] in kept;
    }
  }

  // ---------------------------------------------------------------------------
  // Labelling and saving
  // ---------------------------------------------------------------------------

  /** `tile.shape` is truthy: a shape is set and it is not the empty string. */
  predicate Labeled(t: GridTile) {
    t.shape.Some? && t.shape.value != ""
  }

  predicate AllLabeled(tiles: seq<GridTile>) {
    forall i | 0 <= i < |tiles| :: Labeled(tiles[i])
  }

  /** The save button is enabled exactly when every tile is labelled and a colour is selected. */
  predicate ReadyToSave(color: string, tiles: seq<GridTile>) {
    AllLabeled(tiles) && color != ""
  }

  /** What `saveGridTiles` does with a colour and the detected tiles. */
  datatype SaveOutcome = NoColor | Unlabeled | Added(count: nat)

  function SaveVerdict(color: string, tiles: seq<GridTile>): SaveOutcome {
    if color == "" then NoColor
    else if exists i | 0 <= i < |tiles| :: !Labeled(tiles[i]) then Unlabeled
    else Added(|tiles|)
  }

  /** Saving goes ahead exactly when the button is enabled; otherwise the missing colour is reported before missing shapes. */
  lemma SaveVerdictMatchesButton(color: string, tiles: seq<GridTile>)
    ensures SaveVerdict(color, tiles).Added? <==> ReadyToSave(color, tiles)
    ensures SaveVerdict(color, tiles).Added? ==> SaveVerdict(color, tiles).count == |tiles|
    ensures SaveVerdict(color, tiles) == NoColor <==> color == ""
    ensures SaveVerdict(color, tiles) == Unlabeled <==> color != "" && !AllLabeled(tiles)
  {
  }

  /** The records `saveGridTiles` builds: one per tile, in order, with the chosen colour and the tile's shape. */
  function GridRecords(color: string, tiles: seq<GridTile>, stamps: seq<Stamp>): (records: seq<TrainingImage>)
    requires AllLabeled(tiles) && |stamps| == |tiles|
    ensures |records| == |tiles|
  {
    seq(|tiles|, i requires 0 <= i < |tiles| => MakeImage(stamps[i], tiles[i].imageData, color, tiles[i].shape.value))
  }

  /** Each saved record carries its tile's image, the colour, a non-empty shape, and the label `color-shape`. */
  lemma GridRecordsLabels(color: string, tiles: seq<GridTile>, stamps: seq<Stamp>)
    requires AllLabeled(tiles) && |stamps| == |tiles|
    ensures forall i | 0 <= i < |tiles| ::
              var r := GridRecords(color, tiles, stamps)[i];
              && r.data == tiles[i].imageData && r.color == color && r.id == stamps[i].id
              && Some(r.shape) == tiles[i].shape && r.shape != ""
              && r.tileLabel == color + "-" + r.shape
  {
  }

  /** The state of the grid splitter page: the photo, the detected tiles, the colour selector and the save button. */
  class GridSession {
    var gridImageData: Option<string>
    var detectedGridTiles: seq<GridTile>
    var colorSelection: string
    var saveEnabled: bool

    /** No photo and no tiles; the colour selector starts empty and the button as the page markup sets it. */
    constructor (buttonEnabled: bool)
      ensures gridImageData == None && detectedGridTiles == [] && colorSelection == "" && saveEnabled == buttonEnabled
    {
      gridImageData := None;
      detectedGridTiles := [];
      colorSelection := "";
      saveEnabled := buttonEnabled;
    }

    /**
     * `processGridImage` once the photo is read: it is remembered, its tiles are
     * detected, and they replace the detected tiles unless there are none.
     */
    method ProcessGridImage(dataUrl: string, pixels: array<Byte>, w: nat, h: nat, encodeCrop: Rect -> string)
      returns (tiles: seq<GridTile>, ghost edges: seq<Byte>, ghost fills: seq<Region>, ghost kept: seq<Region>)
      requires IsImage(pixels[..], w, h)
      modifies this
      ensures IsImage(edges, w, h)
      ensures forall p, c | InBounds(w, h, p) && 0 <= c < 4 :: ChannelAt(edges, w, h, p, c) == EdgeByte(pixels[..], w, h, p, c)
      ensures Blobs(edges, w, h, fills)
      ensures kept == GridCandidates(w, h, LargeRegions(fills))
      ensures |tiles| == |kept|
      ensures forall i | 0 <= i < |kept| :: tiles[i] == ExtractTile(w, h, kept[i], encodeCrop)
      ensures gridImageData == Some(dataUrl)
      ensures detectedGridTiles == if tiles == [] then old(detectedGridTiles) else tiles
      ensures forall i | 0 <= i < |tiles| :: tiles[i].shape == None
      ensures colorSelection == old(colorSelection) && saveEnabled == old(saveEnabled)
    {
      gridImageData := Some(dataUrl);
      tiles, edges, fills, kept := DetectAndExtractTiles(pixels, w, h, encodeCrop);
      if |tiles| == 0 {
        return;
      }
      detectedGridTiles := tiles;
    }

    /** `checkGridComplete`: the save button follows `ReadyToSave`. */
    method CheckGridComplete()
      modifies this
      ensures saveEnabled == ReadyToSave(colorSelection, detectedGridTiles)
      ensures detectedGridTiles == old(detectedGridTiles) && colorSelection == old(colorSelection)
      ensures gridImageData == old(gridImageData)
    {
      var allLabeled := forall i | 0 <= i < |detectedGridTiles| :: Labeled(detectedGridTiles[i]);
      var colorSelected := colorSelection != "";
      saveEnabled := allLabeled && colorSelected;
    }

    /** A change of the colour selector, which is wired to `checkGridComplete`. */
    method SelectColor(value: string)
      modifies this
      ensures colorSelection == value
      ensures saveEnabled == ReadyToSave(value, detectedGridTiles)
      ensures detectedGridTiles == old(detectedGridTiles) && gridImageData == old(gridImageData)
    {
      colorSelection := value;
      CheckGridComplete();
    }

    /** `updateGridTileLabel`: a chosen shape is stored, the empty choice removes it; then the button is updated. */
    method UpdateGridTileLabel(index: nat, value: string)
      requires index < |detectedGridTiles|
      modifies this
      ensures detectedGridTiles == old(detectedGridTiles)[index := old(detectedGridTiles)[index].(shape := if value != "" then Some(value) else None)]
      ensures Labeled(detectedGridTiles[index]) <==> value != ""
      ensures saveEnabled == ReadyToSave(colorSelection, detectedGridTiles)
      ensures colorSelection == old(colorSelection) && gridImageData == old(gridImageData)
    {
      var tile := detectedGridTiles[index];
      if value != "" {
        detectedGridTiles := detectedGridTiles[index := tile.(shape := Some(value))];
      } else {
        detectedGridTiles := detectedGridTiles[index := tile.(shape := None)];
      }
      CheckGridComplete();
    }

    /** `cancelGrid`: forgets the photo, the tiles and the colour; the button is left as it was. */
    method CancelGrid()
      modifies this
      ensures gridImageData == None && detectedGridTiles == [] && colorSelection == ""
      ensures saveEnabled == old(saveEnabled)
    {
      colorSelection := "";
      gridImageData := None;
      detectedGridTiles := [];
    }

    /**
     * `saveGridTiles`: refused without a colour, then refused while a tile has
     * no shape; otherwise one record per tile is added to the training data
     * in a single batch and the grid is cleared. `stamps` are the ids and
     * times drawn for the tiles.
     */
    method SaveGridTiles(manager: TrainingDataManager, stamps: seq<Stamp>) returns (outcome: SaveOutcome)
      requires |stamps| == |detectedGridTiles|
      modifies this, manager
      ensures outcome == SaveVerdict(old(colorSelection), old(detectedGridTiles))
      ensures !outcome.Added? ==> unchanged(this) && unchanged(manager)
      ensures outcome.Added? ==>
                && AllLabeled(old(detectedGridTiles))
                && manager.trainingImages == old(manager.trainingImages) + GridRecords(old(colorSelection), old(detectedGridTiles), stamps)
                && manager.storage == Saved(old(manager.storage), manager.encode(manager.trainingImages))
                && gridImageData == None && detectedGridTiles == [] && colorSelection == ""
                && saveEnabled == old(saveEnabled)
    {
      var color := colorSelection;
      if color == "" {
        return NoColor;
      }
      if exists i | 0 <= i < |detectedGridTiles| :: !Labeled(detectedGridTiles[i]) {
        return Unlabeled;
      }
      var newImages := GridRecords(color, detectedGridTiles, stamps);
      manager.AddBatchImages(newImages);
      outcome := Added(|newImages|);
      CancelGrid();
    }
  }
}

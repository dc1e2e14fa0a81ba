/**
 * The pixel pipeline that finds newly placed tiles by comparing two photos:
 * a per-pixel difference mask, blob detection by flood fill, a size filter,
 * the crop around a tile, the dominant color of a tile and the score
 * estimate. Images are RGBA byte buffers of `4 * width * height` entries,
 * row by row, as a canvas `ImageData` holds them.
 */
module ImageProcessing {

  import opened Sequences
  import opened Numbers

  type Byte = b: int | 0 <= b < 256

  /** The buffer holds one RGBA quadruple per pixel. */
  predicate IsImage(data: seq<Byte>, w: nat, h: nat) {
    |data| == 4 * (w * h)
  }

  // ---------------------------------------------------------------------------
  // Difference mask (the loop of `detectAndScoreTiles`)
  // ---------------------------------------------------------------------------

  /** The color difference threshold. */
  const DiffThreshold: nat := 30

  function Abs(a: int): nat {
    if a < 0 then -a else a
  }

  /** The pixel `p` differs by more than the threshold over its red, green and blue channels. */
  predicate Changed(prev: seq<Byte>, curr: seq<Byte>, p: nat)
    requires 4 * p + 3 < |prev| && |curr| == |prev|
  {
    var i := 4 * p;
    Abs(prev[i] as int - curr[i] as int) + Abs(prev[i + 1] as int - curr[i + 1] as int) + Abs(prev[i + 2] as int - curr[i + 2] as int) > DiffThreshold
  }

  /** The byte at position `i` of the mask: white for a changed pixel, black otherwise, always opaque. */
  function MaskByte(prev: seq<Byte>, curr: seq<Byte>, i: nat): Byte
    requires |prev| % 4 == 0 && i < |prev| && |curr| == |prev|
  {
    if i % 4 == 3 then 255 else if Changed(prev, curr, i / 4) then 255 else 0
  }

  /** The difference image `diffData`. */
  function Mask(prev: seq<Byte>, curr: seq<Byte>): (mask: seq<Byte>)
    requires |prev| % 4 == 0 && |curr| == |prev|
    ensures |mask| == |prev|
    ensures forall i | 0 <= i < |mask| :: mask[i] == MaskByte(prev, curr, i)
  {
    seq(|prev|, i requires 0 <= i < |prev| => MaskByte(prev, curr, i))
  }

  /** Each pixel of the mask is (255,255,255,255) when it changed and (0,0,0,255) otherwise. */
  lemma MaskPixel(prev: seq<Byte>, curr: seq<Byte>, p: nat)
    requires |prev| % 4 == 0 && |curr| == |prev| && 4 * p < |prev|
    ensures Mask(prev, curr)[4 * p..4 * p + 4] ==
              if Changed(prev, curr, p) then [255, 255, 255, 255] else [0, 0, 0, 255]
  {
    var mask := Mask(prev, curr);
    var b: Byte := if Changed(prev, curr, p) then 255 else 0;
    forall j | 4 * p <= j < 4 * p + 4 ensures mask[j] == if j == 4 * p + 3 then 255 else b {
      ChannelOf(p, j - 4 * p);
      assert mask[j] == MaskByte(prev, curr, j);
    }
    assert mask[4 * p..4 * p + 4] == [b, b, b, 255] by {
      assert mask[4 * p] == b && mask[4 * p + 1] == b && mask[4 * p + 2] == b && mask[4 * p + 3] == 255;
    }
  }

  /** Byte `4 * p + c` of an RGBA buffer is channel `c` of pixel `p`. */
  lemma ChannelOf(p: nat, c: nat)
    requires c < 4
    ensures (4 * p + c) / 4 == p && (4 * p + c) % 4 == c
  {
  }

  /** The number of changed pixels among the first `n`. */
  function ChangedCount(prev: seq<Byte>, curr: seq<Byte>, n: nat): nat
    requires 4 * n <= |prev| && |curr| == |prev|
  {
    if n == 0 then 0 else ChangedCount(prev, curr, n - 1) + (if Changed(prev, curr, n - 1) then 1 else 0)
  }

  /** The number of pixels among the first `n` whose red byte is 255. */
  function WhiteCount(mask: seq<Byte>, n: nat): nat
    requires 4 * n <= |mask|
  {
    if n == 0 then 0 else WhiteCount(mask, n - 1) + (if mask[4 * (n - 1)] == 255 then 1 else 0)
  }

  /** `changedPixels` counts exactly the white pixels of the mask. */
  lemma {:induction false} ChangedIsWhite(prev: seq<Byte>, curr: seq<Byte>, n: nat)
    requires |prev| % 4 == 0 && |curr| == |prev| && 4 * n <= |prev|
    ensures ChangedCount(prev, curr, n) == WhiteCount(Mask(prev, curr), n)
  {
    if n > 0 {
      ChangedIsWhite(prev, curr, n - 1);
      assert Mask(prev, curr)[4 * (n - 1)] == MaskByte(prev, curr, 4 * (n - 1));
    }
  }

  /** The difference loop: writes the mask into a new buffer and counts the changed pixels. */
  method DiffMask(prev: seq<Byte>, curr: seq<Byte>) returns (diffData: array<Byte>, changedPixels: nat)
    requires |prev| % 4 == 0 && |curr| == |prev|
    ensures fresh(diffData)
    ensures diffData[..] == Mask(prev, curr)
    ensures changedPixels == ChangedCount(prev, curr, |prev| / 4)
  {
    diffData := new Byte[|prev|](_ => 0);
    changedPixels := 0;
    var i := 0;
    while i < |prev|
      invariant i % 4 == 0 && i <= |prev|
      invariant diffData[..i] == Mask(prev, curr)[..i]
      invariant changedPixels == ChangedCount(prev, curr, i / 4)
    {
      MaskStep(prev, curr, i);
      var rDiff := Abs(prev[i] as int - curr[i] as int);
      var gDiff := Abs(prev[i + 1] as int - curr[i + 1] as int);
      var bDiff := Abs(prev[i + 2] as int - curr[i + 2] as int);
      var totalDiff := rDiff + gDiff + bDiff;
      if totalDiff > DiffThreshold {
        changedPixels := changedPixels + 1;
        SetPixel(diffData, i, 255, 255, 255, 255);
      } else {
        SetPixel(diffData, i, 0, 0, 0, 255);
      }
      i := i + 4;
    }
    assert diffData[..] == diffData[..|prev|];
  }

  /** Writes the four bytes of the pixel starting at `i`, leaving the earlier bytes as they were. */
  method SetPixel(a: array<Byte>, i: nat, r: Byte, g: Byte, b: Byte, alpha: Byte)
    requires i + 4 <= a.Length
    modifies a
    ensures a[..i + 4] == old(a[..i]) + [r, g, b, alpha]
  {
    ghost var before := a[..i];
    a[i] := r;
    a[i + 1] := g;
    a[i + 2] := b;
    a[i + 3] := alpha;
    assert a[..i + 4] == before + [r, g, b, alpha];
  }

  /** The mask grows by one pixel's four bytes, and the count by one when that pixel changed. */
  lemma MaskStep(prev: seq<Byte>, curr: seq<Byte>, i: nat)
    requires |prev| % 4 == 0 && |curr| == |prev| && i % 4 == 0 && i < |prev|
    ensures i + 4 <= |prev| && (i + 4) % 4 == 0 && (i + 4) / 4 == i / 4 + 1
    ensures Mask(prev, curr)[..i + 4] == Mask(prev, curr)[..i] +
              if Changed(prev, curr, i / 4) then [255, 255, 255, 255] else [0, 0, 0, 255]
    ensures ChangedCount(prev, curr, i / 4 + 1) == ChangedCount(prev, curr, i / 4) + if Changed(prev, curr, i / 4) then 1 else 0
    ensures Changed(prev, curr, i / 4) <==>
              Abs(prev[i] as int - curr[i] as int) + Abs(prev[i + 1] as int - curr[i + 1] as int)
              + Abs(prev[i + 2] as int - curr[i + 2] as int) > DiffThreshold
  {
    var p := i / 4;
    assert 4 * p == i;
    MaskPixel(prev, curr, p);
    var m := Mask(prev, curr);
    assert m[..i + 4] == m[..i] + m[i..i + 4];
  }

  // ---------------------------------------------------------------------------
  // Pixels of an image
  // ---------------------------------------------------------------------------

  type Pixel = (int, int)

  predicate InBounds(w: nat, h: nat, p: Pixel) {
    0 <= p.0 < w && 0 <= p.1 < h
  }

  /** `y * width + x`, the position of a pixel in the row-by-row order. */
  function Index(w: nat, p: Pixel): int {
    p.1 * w + p.0
  }

  lemma IndexInRange(w: nat, h: nat, p: Pixel)
    requires InBounds(w, h, p)
    ensures 0 <= Index(w, p) < w * h
  {
    var y := p.1;
    var d: nat := h - y - 1;
    assert h * w == y * w + w + d * w;
  }

  /** Rows start `w` positions apart. */
  lemma RowsApart(w: nat, a: int, b: int)
    ensures a < b ==> (a + 1) * w <= b * w
  {
    if a < b {
      var d: nat := b - a - 1;
      assert b * w == (a + 1) * w + d * w;
    }
  }

  /** Distinct pixels of the image have distinct positions. */
  lemma IndexInjective(w: nat, h: nat, p: Pixel, q: Pixel)
    requires InBounds(w, h, p) && InBounds(w, h, q)
    ensures Index(w, p) == Index(w, q) <==> p == q
  {
    RowsApart(w, p.1, q.1);
    RowsApart(w, q.1, p.1);
    assert (p.1 + 1) * w == p.1 * w + w && (q.1 + 1) * w == q.1 * w + w;
  }

  /** The red byte of an in-bounds pixel, `imageData.data[(y * width + x) * 4]`. */
  function RedAt(data: seq<Byte>, w: nat, h: nat, p: Pixel): Byte
    requires IsImage(data, w, h) && InBounds(w, h, p)
  {
    IndexInRange(w, h, p);
    data[4 * Index(w, p)]
  }

  /** The red byte read through the flat index `(y * width + x) * 4`. */
  lemma RedAtIndex(data: seq<Byte>, w: nat, h: nat, x: int, y: int)
    requires IsImage(data, w, h) && InBounds(w, h, (x, y))
    ensures 0 <= (y * w + x) * 4 < |data| && RedAt(data, w, h, (x, y)) == data[(y * w + x) * 4]
  {
    IndexInRange(w, h, (x, y));
  }

  /** The four orthogonal neighbours, in the order the fill pushes them. */
  function Neighbours(p: Pixel): seq<Pixel> {
    [(p.0 + 1, p.1), (p.0 - 1, p.1), (p.0, p.1 + 1), (p.0, p.1 - 1)]
  }

  predicate Adjacent(p: Pixel, q: Pixel) {
    Abs(p.0 - q.0) + Abs(p.1 - q.1) == 1
  }

  lemma NeighboursAdjacent(p: Pixel, q: Pixel)
    ensures q in Neighbours(p) <==> Adjacent(p, q)
  {
  }

  /** The positions of a list of pixels. */
  ghost function IndexSet(w: nat, ps: seq<Pixel>): set<int> {
    set p | p in ps :: Index(w, p)
  }

  /** A pixel the fill will not take: outside the image, already visited, or darker than 128. */
  predicate Settled(data: seq<Byte>, w: nat, h: nat, visited: seq<bool>, q: Pixel)
    requires IsImage(data, w, h) && |visited| == w * h
  {
    !InBounds(w, h, q) || (IndexInRange(w, h, q); visited[Index(w, q)] || RedAt(data, w, h, q) < 128)
  }

  /** Once settled, a pixel stays settled as more pixels are visited. */
  lemma SettledGrows(data: seq<Byte>, w: nat, h: nat, v: seq<bool>, v2: seq<bool>, q: Pixel)
    requires IsImage(data, w, h) && |v| == w * h && |v2| == w * h
    requires forall i | 0 <= i < w * h :: v[i] ==> v2[i]
    requires Settled(data, w, h, v, q)
    ensures Settled(data, w, h, v2, q)
  {
    if InBounds(w, h, q) {
      IndexInRange(w, h, q);
    }
  }

  /** The number of unvisited positions, which each accepted pixel lowers. */
  function CountFalse(s: seq<bool>): nat {
    if s == [] then 0 else CountFalse(s[..|s| - 1]) + (if s[|s| - 1] then 0 else 1)
  }

  lemma {:induction false} CountFalseMark(s: seq<bool>, i: nat)
    requires i < |s| && !s[i]
    ensures CountFalse(s[i := true]) < CountFalse(s)
  {
    if i < |s| - 1 {
      assert s[i := true][..|s| - 1] == s[..|s| - 1][i := true];
      CountFalseMark(s[..|s| - 1], i);
    } else {
      assert s[i := true][..|s| - 1] == s[..|s| - 1];
    }
  }

  // ---------------------------------------------------------------------------
  // Flood fill (`floodFill`)
  // ---------------------------------------------------------------------------

  datatype Bounds = Bounds(minX: int, maxX: int, minY: int, maxY: int)

  /** `{pixels, bounds, centerX, centerY}` of one blob. */
  datatype Region = Region(pixels: seq<Pixel>, bounds: Bounds, centerX: real, centerY: real)

  /** Every pixel taken lies in the image, has red at least 128 and was unvisited before the fill. */
  ghost predicate TakesUnvisited(data: seq<Byte>, w: nat, h: nat, before: seq<bool>, ps: seq<Pixel>)
    requires IsImage(data, w, h) && |before| == w * h
  {
    forall k | 0 <= k < |ps| ::
      InBounds(w, h, ps[k]) && RedAt(data, w, h, ps[k]) >= 128 && (IndexInRange(w, h, ps[k]); !before[Index(w, ps[k])])
  }

  /** The visited flags afterwards are those before plus exactly the pixels taken. */
  ghost predicate MarksTaken(w: nat, before: seq<bool>, after: seq<bool>, ps: seq<Pixel>) {
    |after| == |before| && forall i | 0 <= i < |after| :: after[i] == (before[i] || i in IndexSet(w, ps))
  }

  /** The bounds contain the seed and every pixel taken. */
  ghost predicate Encloses(b: Bounds, seed: Pixel, ps: seq<Pixel>) {
    && b.minX <= seed.0 <= b.maxX && b.minY <= seed.1 <= b.maxY
    && forall p | p in ps :: b.minX <= p.0 <= b.maxX && b.minY <= p.1 <= b.maxY
  }

  /** Each side of the bounds is reached by a pixel of the list. */
  ghost predicate Attained(b: Bounds, ps: seq<Pixel>) {
    && (exists p | p in ps :: p.0 == b.minX)
    && (exists p | p in ps :: p.0 == b.maxX)
    && (exists p | p in ps :: p.1 == b.minY)
    && (exists p | p in ps :: p.1 == b.maxY)
  }

  /** The bounds are the least and greatest coordinates of the pixels, and the centre is their midpoint. */
  ghost predicate HasExtents(f: Region) {
    && (forall p | p in f.pixels :: f.bounds.minX <= p.0 <= f.bounds.maxX && f.bounds.minY <= p.1 <= f.bounds.maxY)
    && Attained(f.bounds, f.pixels)
    && f.centerX == (f.bounds.minX + f.bounds.maxX) as real / 2.0
    && f.centerY == (f.bounds.minY + f.bounds.maxY) as real / 2.0
  }

  /**
   * Widening the bounds by one more pixel, as the four `Math.min`/`Math.max`
   * updates do, keeps the seed and every pixel inside and every side reached.
   */
  lemma WidenStep(b: Bounds, seed: Pixel, ps: seq<Pixel>, q: Pixel)
    requires Encloses(b, seed, ps)
    requires ps != [] ==> Attained(b, ps)
    requires ps == [] ==> b == Bounds(q.0, q.0, q.1, q.1)
    ensures var b' := Bounds(if q.0 < b.minX then q.0 else b.minX, if q.0 > b.maxX then q.0 else b.maxX,
                             if q.1 < b.minY then q.1 else b.minY, if q.1 > b.maxY then q.1 else b.maxY);
            Encloses(b', seed, ps + [q]) && Attained(b', ps + [q])
  {
    var ps2 := ps + [q];
    forall p | p in ps2 ensures p in ps || p == q { }
    assert q in ps2;
    if ps != [] {
      var a :| a in ps && a.0 == b.minX;
      var c :| c in ps && c.0 == b.maxX;
      var d :| d in ps && d.1 == b.minY;
      var e :| e in ps && e.1 == b.maxY;
      assert a in ps2 && c in ps2 && d in ps2 && e in ps2;
    }
  }

  /** Every pixel taken is the seed or a 4-neighbour of a pixel taken before it. */
  ghost predicate GrowsFrom(seed: Pixel, ps: seq<Pixel>) {
    forall k | 0 <= k < |ps| :: ps[k] == seed || exists j | 0 <= j < k :: Adjacent(ps[j], ps[k])
  }

  /** No 4-neighbour of a pixel taken is left that the fill would have taken. */
  ghost predicate Closed(data: seq<Byte>, w: nat, h: nat, visited: seq<bool>, ps: seq<Pixel>)
    requires IsImage(data, w, h) && |visited| == w * h
  {
    forall p, q | p in ps && q in Neighbours(p) :: Settled(data, w, h, visited, q)
  }

  /** Every pixel on the stack is the seed or a 4-neighbour of a pixel taken. */
  ghost predicate StackFromTaken(seed: Pixel, ps: seq<Pixel>, stack: seq<Pixel>) {
    forall e | e in stack :: e == seed || exists k | 0 <= k < |ps| :: Adjacent(ps[k], e)
  }

  /** Every 4-neighbour of a pixel taken is still on the stack or settled. */
  ghost predicate Frontier(data: seq<Byte>, w: nat, h: nat, visited: seq<bool>, ps: seq<Pixel>, stack: seq<Pixel>)
    requires IsImage(data, w, h) && |visited| == w * h
  {
    forall p, q | p in ps && q in Neighbours(p) :: q in stack || Settled(data, w, h, visited, q)
  }

  /** What the loop of `floodFill` keeps, besides the bounds. */
  ghost predicate FillInvariant(data: seq<Byte>, w: nat, h: nat, seed: Pixel, before: seq<bool>,
                                visited: seq<bool>, ps: seq<Pixel>, stack: seq<Pixel>)
    requires IsImage(data, w, h) && |before| == w * h && |visited| == w * h
  {
    && TakesUnvisited(data, w, h, before, ps)
    && Distinct(ps)
    && MarksTaken(w, before, visited, ps)
    && GrowsFrom(seed, ps)
    && StackFromTaken(seed, ps, stack)
    && Frontier(data, w, h, visited, ps, stack)
  }

  lemma FillStart(data: seq<Byte>, w: nat, h: nat, seed: Pixel, before: seq<bool>)
    requires IsImage(data, w, h) && |before| == w * h
    ensures FillInvariant(data, w, h, seed, before, before, [], [seed])
  {
  }

  /** Dropping a popped pixel that the fill does not take keeps the invariant. */
  lemma FillSkip(data: seq<Byte>, w: nat, h: nat, seed: Pixel, before: seq<bool>,
                 visited: seq<bool>, ps: seq<Pixel>, stack: seq<Pixel>)
    requires IsImage(data, w, h) && |before| == w * h && |visited| == w * h
    requires stack != []
    requires FillInvariant(data, w, h, seed, before, visited, ps, stack)
    requires Settled(data, w, h, visited, stack[|stack| - 1])
    ensures FillInvariant(data, w, h, seed, before, visited, ps, stack[..|stack| - 1])
  {
    var rest := stack[..|stack| - 1];
    assert stack == rest + [stack[|stack| - 1]];
    forall e | e in rest ensures e in stack {
    }
  }

  /** The pixel taken is new, in the image, bright and unvisited; marking it records exactly it. */
  lemma TakeMarks(data: seq<Byte>, w: nat, h: nat, before: seq<bool>, visited: seq<bool>, ps: seq<Pixel>, q: Pixel)
    requires IsImage(data, w, h) && |before| == w * h && |visited| == w * h
    requires TakesUnvisited(data, w, h, before, ps) && Distinct(ps) && MarksTaken(w, before, visited, ps)
    requires InBounds(w, h, q) && !Settled(data, w, h, visited, q)
    ensures 0 <= Index(w, q) < |visited|
    ensures TakesUnvisited(data, w, h, before, ps + [q])
    ensures Distinct(ps + [q])
    ensures MarksTaken(w, before, visited[Index(w, q) := true], ps + [q])
  {
    IndexInRange(w, h, q);
    var i := Index(w, q);
    var ps2 := ps + [q];
    assert IndexSet(w, ps2) == IndexSet(w, ps) + {i};
    assert i !in IndexSet(w, ps);
    assert q !in ps;
    forall a, b | 0 <= a < b < |ps2| ensures ps2[a] != ps2[b] {
      assert ps2[a] == ps[a];
      if b < |ps| {
        assert ps2[b] == ps[b];
      }
    }
    forall k | 0 <= k < |ps2| ensures InBounds(w, h, ps2[k]) && RedAt(data, w, h, ps2[k]) >= 128
                                      && (IndexInRange(w, h, ps2[k]); !before[Index(w, ps2[k])]) {
      if k < |ps| {
        assert ps2[k] == ps[k];
      } else {
        assert i !in IndexSet(w, ps);
      }
    }
  }

  /** The pixel taken came off the stack, so it is the seed or next to an earlier one; so are its neighbours. */
  lemma TakeGrows(seed: Pixel, ps: seq<Pixel>, stack: seq<Pixel>)
    requires stack != []
    requires GrowsFrom(seed, ps) && StackFromTaken(seed, ps, stack)
    ensures var q := stack[|stack| - 1];
            && GrowsFrom(seed, ps + [q])
            && StackFromTaken(seed, ps + [q], stack[..|stack| - 1] + Neighbours(q))
  {
    var q := stack[|stack| - 1];
    var ps2 := ps + [q];
    var rest := stack[..|stack| - 1];
    assert q in stack;
    forall k | 0 <= k < |ps2| ensures ps2[k] == seed || exists j | 0 <= j < k :: Adjacent(ps2[j], ps2[k]) {
      if k < |ps| {
        assert ps2[k] == ps[k];
        if ps[k] != seed {
          var j :| 0 <= j < k && Adjacent(ps[j], ps[k]);
          assert ps2[j] == ps[j];
        }
      } else if q != seed {
        var j :| 0 <= j < |ps| && Adjacent(ps[j], q);
        assert ps2[j] == ps[j];
      }
    }
    forall e | e in rest + Neighbours(q) ensures e == seed || exists k | 0 <= k < |ps2| :: Adjacent(ps2[k], e) {
      if e in rest {
        assert e in stack;
        if e != seed {
          var k :| 0 <= k < |ps| && Adjacent(ps[k], e);
          assert ps2[k] == ps[k];
        }
      } else {
        NeighboursAdjacent(q, e);
        assert ps2[|ps|] == q;
      }
    }
  }

  /** After taking the popped pixel and pushing its neighbours, the frontier is still covered. */
  lemma TakeFrontier(data: seq<Byte>, w: nat, h: nat, visited: seq<bool>, ps: seq<Pixel>, stack: seq<Pixel>)
    requires IsImage(data, w, h) && |visited| == w * h
    requires stack != [] && InBounds(w, h, stack[|stack| - 1])
    requires Frontier(data, w, h, visited, ps, stack)
    ensures var q := stack[|stack| - 1];
            && 0 <= Index(w, q) < |visited|
            && Frontier(data, w, h, visited[Index(w, q) := true], ps + [q], stack[..|stack| - 1] + Neighbours(q))
  {
    var q := stack[|stack| - 1];
    IndexInRange(w, h, q);
    var i := Index(w, q);
    var v2 := visited[i := true];
    var rest := stack[..|stack| - 1];
    var stack2 := rest + Neighbours(q);
    assert stack == rest + [q];
    forall p, r | p in ps + [q] && r in Neighbours(p) ensures r in stack2 || Settled(data, w, h, v2, r) {
      if p != q && r !in stack2 {
        if r == q {
          assert v2[i];
        } else {
          assert r !in stack;
          SettledGrows(data, w, h, visited, v2, r);
        }
      }
    }
  }

  /** Taking a popped pixel and pushing its four neighbours keeps the invariant. */
  lemma FillTake(data: seq<Byte>, w: nat, h: nat, seed: Pixel, before: seq<bool>,
                 visited: seq<bool>, ps: seq<Pixel>, stack: seq<Pixel>)
    requires IsImage(data, w, h) && |before| == w * h && |visited| == w * h
    requires stack != []
    requires FillInvariant(data, w, h, seed, before, visited, ps, stack)
    requires InBounds(w, h, stack[|stack| - 1])
    requires !Settled(data, w, h, visited, stack[|stack| - 1])
    ensures var q := stack[|stack| - 1];
            && 0 <= Index(w, q) < |visited|
            && FillInvariant(data, w, h, seed, before, visited[Index(w, q) := true], ps + [q],
                             stack[..|stack| - 1] + Neighbours(q))
  {
    TakeMarks(data, w, h, before, visited, ps, stack[|stack| - 1]);
    TakeGrows(seed, ps, stack);
    TakeFrontier(data, w, h, visited, ps, stack);
  }

  /** The seed lies in the image, is unvisited and has red at least 128. */
  predicate Takeable(data: seq<Byte>, w: nat, h: nat, visited: seq<bool>, seed: Pixel)
    requires IsImage(data, w, h) && |visited| == w * h
  {
    !Settled(data, w, h, visited, seed)
  }

  /** A seed the fill may take is the first pixel it takes. */
  ghost predicate SeedFirst(data: seq<Byte>, w: nat, h: nat, before: seq<bool>, seed: Pixel, ps: seq<Pixel>)
    requires IsImage(data, w, h) && |before| == w * h
  {
    Takeable(data, w, h, before, seed) ==> ps != [] && ps[0] == seed
  }

  /** Before the first pixel is taken, the fill's view of the seed is the one it started with. */
  lemma SeedUntouched(data: seq<Byte>, w: nat, h: nat, before: seq<bool>, visited: seq<bool>, ps: seq<Pixel>, seed: Pixel)
    requires IsImage(data, w, h) && |before| == w * h && |visited| == w * h
    requires MarksTaken(w, before, visited, ps)
    ensures ps == [] ==> (Takeable(data, w, h, visited, seed) <==> Takeable(data, w, h, before, seed))
  {
    if InBounds(w, h, seed) {
      IndexInRange(w, h, seed);
    }
  }

  /** Until the first pixel is taken, a seed the fill may take is alone on the stack; afterwards it was taken first. */
  ghost predicate SeedOnTop(data: seq<Byte>, w: nat, h: nat, before: seq<bool>, seed: Pixel, ps: seq<Pixel>, stack: seq<Pixel>)
    requires IsImage(data, w, h) && |before| == w * h
  {
    Takeable(data, w, h, before, seed) ==> (ps == [] ==> stack == [seed]) && (ps != [] ==> ps[0] == seed)
  }

  lemma SeedSkip(data: seq<Byte>, w: nat, h: nat, before: seq<bool>, visited: seq<bool>, seed: Pixel,
                 ps: seq<Pixel>, stack: seq<Pixel>)
    requires IsImage(data, w, h) && |before| == w * h && |visited| == w * h
    requires MarksTaken(w, before, visited, ps) && SeedOnTop(data, w, h, before, seed, ps, stack)
    requires stack != [] && Settled(data, w, h, visited, stack[|stack| - 1])
    ensures SeedOnTop(data, w, h, before, seed, ps, stack[..|stack| - 1])
  {
    SeedUntouched(data, w, h, before, visited, ps, seed);
  }

  lemma SeedTake(data: seq<Byte>, w: nat, h: nat, before: seq<bool>, seed: Pixel, ps: seq<Pixel>, stack: seq<Pixel>)
    requires IsImage(data, w, h) && |before| == w * h
    requires SeedOnTop(data, w, h, before, seed, ps, stack) && stack != []
    ensures var q := stack[|stack| - 1];
            SeedOnTop(data, w, h, before, seed, ps + [q], stack[..|stack| - 1] + Neighbours(q))
  {
  }

  /**
   * `floodFill`: pops pixels off a stack, takes those inside the image that
   * are unvisited and have red at least 128, marks them visited, widens the
   * bounds and pushes the four neighbours.
   */
  method FloodFill(data: seq<Byte>, w: nat, h: nat, startX: int, startY: int, visited: array<bool>)
    returns (region: Region)
    requires IsImage(data, w, h) && visited.Length == w * h
    modifies visited
    ensures TakesUnvisited(data, w, h, old(visited[..]), region.pixels)
    ensures Distinct(region.pixels)
    ensures MarksTaken(w, old(visited[..]), visited[..], region.pixels)
    ensures GrowsFrom((startX, startY), region.pixels)
    ensures Closed(data, w, h, visited[..], region.pixels)
    ensures Encloses(region.bounds, (startX, startY), region.pixels)
    ensures region.pixels == [] ==> region.bounds == Bounds(startX, startX, startY, startY)
    ensures region.pixels != [] ==> HasExtents(region)
    ensures SeedFirst(data, w, h, old(visited[..]), (startX, startY), region.pixels)
    ensures region.centerX == (region.bounds.minX + region.bounds.maxX) as real / 2.0
    ensures region.centerY == (region.bounds.minY + region.bounds.maxY) as real / 2.0
  {
    ghost var before := visited[..];
    ghost var seed := (startX, startY);
    var stack := [(startX, startY)];
    var pixels: seq<Pixel> := [];
    var minX, maxX := startX, startX;
    var minY, maxY := startY, startY;
    FillStart(data, w, h, seed, before);
    while |stack| > 0
      invariant FillInvariant(data, w, h, seed, before, visited[..], pixels, stack)
      invariant Encloses(Bounds(minX, maxX, minY, maxY), seed, pixels)
      invariant pixels == [] ==> Bounds(minX, maxX, minY, maxY) == Bounds(startX, startX, startY, startY)
      invariant pixels != [] ==> Attained(Bounds(minX, maxX, minY, maxY), pixels)
      invariant SeedOnTop(data, w, h, before, seed, pixels, stack)
      decreases CountFalse(visited[..]), |stack|
    {
      var q := stack[|stack| - 1];
      var x, y := q.0, q.1;
      if x < 0 || x >= w || y < 0 || y >= h {
        FillSkip(data, w, h, seed, before, visited[..], pixels, stack);
        SeedSkip(data, w, h, before, visited[..], seed, pixels, stack);
        stack := stack[..|stack| - 1];
        continue;
      }
      IndexInRange(w, h, q);
      var idx := y * w + x;
      if visited[idx] {
        FillSkip(data, w, h, seed, before, visited[..], pixels, stack);
        SeedSkip(data, w, h, before, visited[..], seed, pixels, stack);
        stack := stack[..|stack| - 1];
        continue;
      }
      var pixelIdx := idx * 4;
      if data[pixelIdx] < 128 {
        FillSkip(data, w, h, seed, before, visited[..], pixels, stack);
        SeedSkip(data, w, h, before, visited[..], seed, pixels, stack);
        stack := stack[..|stack| - 1];
        continue;
      }
      ghost var v := visited[..];
      assert idx == Index(w, q) && q == (x, y);
      FillTake(data, w, h, seed, before, v, pixels, stack);
      SeedTake(data, w, h, before, seed, pixels, stack);
      CountFalseMark(v, idx);
      assert pixels == [] ==> q == seed by {
        assert GrowsFrom(seed, pixels + [q]) && (pixels + [q])[|pixels|] == q;
      }
      WidenStep(Bounds(minX, maxX, minY, maxY), seed, pixels, q);
      visited[idx] := true;
      assert visited[..] == v[idx := true];
      pixels := pixels + [q];
      minX := if x < minX then x else minX;
      maxX := if x > maxX then x else maxX;
      minY := if y < minY then y else minY;
      maxY := if y > maxY then y else maxY;
      // push (x + 1, y), (x - 1, y), (x, y + 1), (x, y - 1) in that order
      stack := stack[..|stack| - 1] + Neighbours(q);
    }
    region := Region(pixels, Bounds(minX, maxX, minY, maxY), (minX + maxX) as real / 2.0, (minY + maxY) as real / 2.0);
  }

  // ---------------------------------------------------------------------------
  // Connected regions (`findConnectedRegions`)
  // ---------------------------------------------------------------------------

  /** The fills of more than 50 pixels, in the order they were found. */
  function LargeRegions(fills: seq<Region>): (rs: seq<Region>)
    ensures forall r | r in rs :: r in fills && |r.pixels| > 50
    ensures forall r | r in fills && |r.pixels| > 50 :: r in rs
    ensures |rs| <= |fills|
  {
    if fills == [] then []
    else
      var last := fills[|fills| - 1];
      var init := fills[..|fills| - 1];
      assert fills == init + [last];
      LargeRegions(init) + (if |last.pixels| > 50 then [last] else [])
  }

  /** The positions of all pixels of all fills. */
  ghost function Covered(w: nat, fills: seq<Region>): set<int> {
    if fills == [] then {} else Covered(w, fills[..|fills| - 1]) + IndexSet(w, fills[|fills| - 1].pixels)
  }

  lemma {:induction false} InCovered(w: nat, fills: seq<Region>, i: nat, p: Pixel)
    requires i < |fills| && p in fills[i].pixels
    ensures Index(w, p) in Covered(w, fills)
  {
    if i < |fills| - 1 {
      InCovered(w, fills[..|fills| - 1], i, p);
    }
  }

  lemma {:induction false} CoveredHas(w: nat, fills: seq<Region>, k: int)
    requires k in Covered(w, fills)
    ensures exists i, p | 0 <= i < |fills| && p in fills[i].pixels :: Index(w, p) == k
  {
    var init := fills[..|fills| - 1];
    if k in Covered(w, init) {
      CoveredHas(w, init, k);
      var i, p :| 0 <= i < |init| && p in init[i].pixels && Index(w, p) == k;
      assert fills[i] == init[i];
    } else {
      var p :| p in fills[|fills| - 1].pixels && Index(w, p) == k;
    }
  }

  /** Every pixel of the list lies in the image and has red at least 128. */
  ghost predicate Bright(data: seq<Byte>, w: nat, h: nat, ps: seq<Pixel>)
    requires IsImage(data, w, h)
  {
    forall p | p in ps :: InBounds(w, h, p) && RedAt(data, w, h, p) >= 128
  }

  /** A fill seeded at a pixel with red above 128: it grows from that pixel, over bright pixels, without repetition. */
  ghost predicate SeededFill(data: seq<Byte>, w: nat, h: nat, f: Region)
    requires IsImage(data, w, h)
  {
    && f.pixels != []
    && Bright(data, w, h, f.pixels)
    && RedAt(data, w, h, f.pixels[0]) > 128
    && GrowsFrom(f.pixels[0], f.pixels)
    && Distinct(f.pixels)
  }

  /** No pixel belongs to two fills. */
  ghost predicate PairwiseDisjoint(fills: seq<Region>) {
    forall i, j, p | 0 <= i < j < |fills| && p in fills[i].pixels :: p !in fills[j].pixels
  }

  /** Every 4-neighbour of a pixel of the fill that lies in the image and has red at least 128 belongs to the fill. */
  ghost predicate Maximal(data: seq<Byte>, w: nat, h: nat, f: Region)
    requires IsImage(data, w, h)
  {
    forall p, q | p in f.pixels && q in Neighbours(p) :: !InBounds(w, h, q) || RedAt(data, w, h, q) < 128 || q in f.pixels
  }

  /** A fill as the scan leaves it: seeded, closed under bright neighbours, and with its exact extents. */
  ghost predicate Blob(data: seq<Byte>, w: nat, h: nat, f: Region)
    requires IsImage(data, w, h)
  {
    SeededFill(data, w, h, f) && SeedLeads(data, w, h, f) && Maximal(data, w, h, f) && HasExtents(f)
  }

  /**
   * The fills of the whole scan: each one a blob, no two sharing a pixel,
   * and together holding every pixel with red above 128. So each fill is the
   * 4-connected component, over pixels with red at least 128, of its seed.
   */
  ghost predicate Blobs(data: seq<Byte>, w: nat, h: nat, fills: seq<Region>)
    requires IsImage(data, w, h)
  {
    && (forall f | f in fills :: Blob(data, w, h, f))
    && PairwiseDisjoint(fills)
    && (forall p | InBounds(w, h, p) && RedAt(data, w, h, p) > 128 :: p in AllPixels(fills))
    && ScanOrdered(Seeds(fills))
  }

  /** The pixels of all fills together. */
  ghost function AllPixels(fills: seq<Region>): set<Pixel> {
    if fills == [] then {} else AllPixels(fills[..|fills| - 1]) + Elements(fills[|fills| - 1].pixels)
  }

  lemma {:induction false} InAllPixels(fills: seq<Region>, i: nat, p: Pixel)
    requires i < |fills| && p in fills[i].pixels
    ensures p in AllPixels(fills)
  {
    if i < |fills| - 1 {
      InAllPixels(fills[..|fills| - 1], i, p);
    } else {
      assert p in Elements(fills[i].pixels);
    }
  }

  lemma {:induction false} AllPixelsHas(fills: seq<Region>, p: Pixel) returns (i: nat)
    requires p in AllPixels(fills)
    ensures i < |fills| && p in fills[i].pixels
  {
    var init := fills[..|fills| - 1];
    if p in AllPixels(init) {
      i := AllPixelsHas(init, p);
      assert fills[i] == init[i];
    } else {
      i := |fills| - 1;
      assert p in Elements(fills[i].pixels);
    }
  }

  /** The pixel is visited; its flag is `visited[y * width + x]`. */
  predicate VisitedAt(w: nat, h: nat, visited: seq<bool>, p: Pixel)
    requires |visited| == w * h && InBounds(w, h, p)
  {
    IndexInRange(w, h, p);
    visited[Index(w, p)]
  }

  /** The pixel comes before `(x, y)` in the row-by-row scan. */
  predicate ScannedBefore(p: Pixel, x: int, y: int) {
    p.1 < y || (p.1 == y && p.0 < x)
  }

  /** `p` comes before `q` in the scan. */
  predicate Precedes(p: Pixel, q: Pixel) {
    ScannedBefore(p, q.0, q.1)
  }

  /** The pixels are in strict scan order. */
  predicate ScanOrdered(s: seq<Pixel>) {
    forall i, j | 0 <= i < j < |s| :: Precedes(s[i], s[j])
  }

  /** The seed of a fill, its first pixel (the fills of the scan are never empty). */
  function SeedOf(f: Region): Pixel {
    if f.pixels == [] then (0, 0) else f.pixels[0]
  }

  /** The seeds of the fills, in list order. */
  function Seeds(fills: seq<Region>): seq<Pixel> {
    seq(|fills|, i requires 0 <= i < |fills| => SeedOf(fills[i]))
  }

  /** No pixel of the fill with red above 128 comes before its seed in the scan. */
  ghost predicate SeedLeads(data: seq<Byte>, w: nat, h: nat, f: Region)
    requires IsImage(data, w, h)
  {
    forall p | p in f.pixels && InBounds(w, h, p) && RedAt(data, w, h, p) > 128 :: !Precedes(p, SeedOf(f))
  }

  /** Every fill's seed comes before `(x, y)` in the scan. */
  predicate SeedsBefore(fills: seq<Region>, x: int, y: int) {
    forall f | f in fills :: ScannedBefore(SeedOf(f), x, y)
  }

  /** Seeds before one scan position are before every later one. */
  lemma SeedsLater(fills: seq<Region>, x: int, y: int, x': int, y': int)
    requires SeedsBefore(fills, x, y) && (y < y' || (y == y' && x <= x'))
    ensures SeedsBefore(fills, x', y')
  {
  }

  /** What the scan keeps: the visited flags are exactly the fills' pixels, which are seeded bright fills that do not overlap. */
  ghost predicate ScanInvariant(data: seq<Byte>, w: nat, h: nat, visited: seq<bool>, fills: seq<Region>, regions: seq<Region>)
    requires IsImage(data, w, h)
  {
    && |visited| == w * h
    && (forall i | 0 <= i < w * h :: visited[i] == (i in Covered(w, fills)))
    && (forall f | f in fills :: Blob(data, w, h, f))
    && PairwiseDisjoint(fills)
    && regions == LargeRegions(fills)
    && ScanOrdered(Seeds(fills))
  }

  /** Every pixel scanned so far with red above 128 is visited. */
  ghost predicate ScanCovers(data: seq<Byte>, w: nat, h: nat, visited: seq<bool>, x: int, y: int)
    requires IsImage(data, w, h) && |visited| == w * h
  {
    forall p | InBounds(w, h, p) && ScannedBefore(p, x, y) && RedAt(data, w, h, p) > 128 :: VisitedAt(w, h, visited, p)
  }

  lemma ScanStart(data: seq<Byte>, w: nat, h: nat, visited: seq<bool>)
    requires IsImage(data, w, h) && |visited| == w * h
    requires forall i | 0 <= i < |visited| :: !visited[i]
    ensures ScanInvariant(data, w, h, visited, [], []) && ScanCovers(data, w, h, visited, 0, 0)
    ensures SeedsBefore([], 0, 0)
  {
  }

  /** Moving past a pixel that is visited already or not bright enough to seed keeps what has been scanned covered. */
  lemma ScanPass(data: seq<Byte>, w: nat, h: nat, visited: seq<bool>, x: int, y: int)
    requires IsImage(data, w, h) && |visited| == w * h && InBounds(w, h, (x, y))
    requires ScanCovers(data, w, h, visited, x, y)
    requires VisitedAt(w, h, visited, (x, y)) || RedAt(data, w, h, (x, y)) <= 128
    ensures ScanCovers(data, w, h, visited, x + 1, y)
  {
  }

  /** At the end of a row the scan continues at the start of the next. */
  lemma ScanRow(data: seq<Byte>, w: nat, h: nat, visited: seq<bool>, y: int)
    requires IsImage(data, w, h) && |visited| == w * h
    requires ScanCovers(data, w, h, visited, w, y)
    ensures ScanCovers(data, w, h, visited, 0, y + 1)
  {
  }

  /** A fill from an unvisited seed with red above 128 adds a new seeded fill, disjoint from the others, and covers the seed. */
  lemma ScanFill(data: seq<Byte>, w: nat, h: nat, visited: seq<bool>, after: seq<bool>,
                 fills: seq<Region>, regions: seq<Region>, region: Region, x: int, y: int)
    requires IsImage(data, w, h) && InBounds(w, h, (x, y))
    requires ScanInvariant(data, w, h, visited, fills, regions) && ScanCovers(data, w, h, visited, x, y)
    requires !VisitedAt(w, h, visited, (x, y)) && RedAt(data, w, h, (x, y)) > 128
    requires |after| == w * h
    requires TakesUnvisited(data, w, h, visited, region.pixels) && Distinct(region.pixels)
    requires MarksTaken(w, visited, after, region.pixels)
    requires GrowsFrom((x, y), region.pixels) && SeedFirst(data, w, h, visited, (x, y), region.pixels)
    requires Closed(data, w, h, after, region.pixels)
    requires region.pixels != [] ==> HasExtents(region)
    requires SeedsBefore(fills, x, y)
    ensures ScanInvariant(data, w, h, after, fills + [region],
                          if |region.pixels| > 50 then regions + [region] else regions)
    ensures ScanCovers(data, w, h, after, x + 1, y)
    ensures SeedsBefore(fills + [region], x + 1, y)
  {
    var fills2 := fills + [region];
    assert fills2[..|fills2| - 1] == fills;
    FillSeeded(data, w, h, visited, region, x, y);
    FillLeads(data, w, h, visited, region, x, y);
    FillOrdered(fills, region, x, y);
    FillMaximal(data, w, h, visited, after, fills, region);
    forall f | f in fills2 ensures Blob(data, w, h, f) {
      if f != region {
        assert f in fills;
      }
    }
    FillDisjoint(data, w, h, visited, fills, region);
    FillCovered(w, visited, after, fills, region);
    FillCovers(data, w, h, visited, after, region, x, y);
  }

  /** The fill from an unvisited seed with red above 128 is a seeded fill. */
  lemma FillSeeded(data: seq<Byte>, w: nat, h: nat, visited: seq<bool>, region: Region, x: int, y: int)
    requires IsImage(data, w, h) && InBounds(w, h, (x, y)) && |visited| == w * h
    requires !VisitedAt(w, h, visited, (x, y)) && RedAt(data, w, h, (x, y)) > 128
    requires TakesUnvisited(data, w, h, visited, region.pixels) && Distinct(region.pixels)
    requires GrowsFrom((x, y), region.pixels) && SeedFirst(data, w, h, visited, (x, y), region.pixels)
    ensures SeededFill(data, w, h, region)
  {
    var ps := region.pixels;
    IndexInRange(w, h, (x, y));
    assert Takeable(data, w, h, visited, (x, y));
    assert ps[0] == (x, y);
    forall p | p in ps ensures InBounds(w, h, p) && RedAt(data, w, h, p) >= 128 {
      var k :| 0 <= k < |ps| && ps[k] == p;
    }
  }

  /** No pixel the fill takes was scanned before its seed: the scanned ones with red above 128 are all visited. */
  lemma FillLeads(data: seq<Byte>, w: nat, h: nat, visited: seq<bool>, region: Region, x: int, y: int)
    requires IsImage(data, w, h) && InBounds(w, h, (x, y)) && |visited| == w * h
    requires ScanCovers(data, w, h, visited, x, y)
    requires !VisitedAt(w, h, visited, (x, y)) && RedAt(data, w, h, (x, y)) > 128
    requires TakesUnvisited(data, w, h, visited, region.pixels)
    requires SeedFirst(data, w, h, visited, (x, y), region.pixels)
    ensures SeedOf(region) == (x, y)
    ensures SeedLeads(data, w, h, region)
  {
    var ps := region.pixels;
    IndexInRange(w, h, (x, y));
    assert Takeable(data, w, h, visited, (x, y));
    assert ps[0] == (x, y);
    forall p | p in ps && InBounds(w, h, p) && RedAt(data, w, h, p) > 128 ensures !Precedes(p, (x, y)) {
      var k :| 0 <= k < |ps| && ps[k] == p;
      IndexInRange(w, h, p);
      assert !VisitedAt(w, h, visited, p);
    }
  }

  /** A fill seeded at `(x, y)` goes after the earlier fills, whose seeds were all scanned before it. */
  lemma FillOrdered(fills: seq<Region>, region: Region, x: int, y: int)
    requires ScanOrdered(Seeds(fills)) && SeedsBefore(fills, x, y) && SeedOf(region) == (x, y)
    ensures ScanOrdered(Seeds(fills + [region]))
    ensures SeedsBefore(fills + [region], x + 1, y)
  {
    var s := Seeds(fills + [region]);
    assert s == Seeds(fills) + [(x, y)];
    forall i | 0 <= i < |fills| ensures Precedes(s[i], (x, y)) {
      assert fills[i] in fills;
    }
  }

  /**
   * A closed fill over unvisited pixels is maximal when the earlier fills are
   * maximal and hold exactly the visited pixels: a bright neighbour it did not
   * take would lie in an earlier fill, and that fill would then hold the
   * neighbouring pixel of this one too.
   */
  lemma FillMaximal(data: seq<Byte>, w: nat, h: nat, visited: seq<bool>, after: seq<bool>, fills: seq<Region>, region: Region)
    requires IsImage(data, w, h) && |visited| == w * h && |after| == w * h
    requires forall i | 0 <= i < w * h :: visited[i] == (i in Covered(w, fills))
    requires forall f | f in fills :: Blob(data, w, h, f)
    requires TakesUnvisited(data, w, h, visited, region.pixels)
    requires MarksTaken(w, visited, after, region.pixels)
    requires Closed(data, w, h, after, region.pixels)
    ensures Maximal(data, w, h, region)
  {
    var ps := region.pixels;
    forall p, q | p in ps && q in Neighbours(p) && InBounds(w, h, q) && RedAt(data, w, h, q) >= 128
      ensures q in ps
    {
      if q !in ps {
        var k :| 0 <= k < |ps| && ps[k] == p;
        IndexInRange(w, h, p);
        NotTakenWasVisited(data, w, h, visited, after, ps, q);
        EarlierFillHolds(data, w, h, visited, fills, p, q);
        assert false;
      }
    }
  }

  /** A bright neighbour that the fill left settled but did not take was visited before the fill. */
  lemma NotTakenWasVisited(data: seq<Byte>, w: nat, h: nat, visited: seq<bool>, after: seq<bool>, ps: seq<Pixel>, q: Pixel)
    requires IsImage(data, w, h) && |visited| == w * h && |after| == w * h
    requires TakesUnvisited(data, w, h, visited, ps) && MarksTaken(w, visited, after, ps)
    requires InBounds(w, h, q) && RedAt(data, w, h, q) >= 128 && Settled(data, w, h, after, q) && q !in ps
    ensures 0 <= Index(w, q) < w * h && visited[Index(w, q)]
  {
    IndexInRange(w, h, q);
    var i := Index(w, q);
    if i in IndexSet(w, ps) {
      var r :| r in ps && Index(w, r) == i;
      var k :| 0 <= k < |ps| && ps[k] == r;
      IndexInjective(w, h, q, r);
    }
  }

  /** A bright pixel next to a pixel of an earlier maximal fill belongs to that fill, so it was visited too. */
  lemma EarlierFillHolds(data: seq<Byte>, w: nat, h: nat, visited: seq<bool>, fills: seq<Region>, p: Pixel, q: Pixel)
    requires IsImage(data, w, h) && |visited| == w * h
    requires forall i | 0 <= i < w * h :: visited[i] == (i in Covered(w, fills))
    requires forall f | f in fills :: Blob(data, w, h, f)
    requires InBounds(w, h, p) && RedAt(data, w, h, p) >= 128 && q in Neighbours(p)
    requires InBounds(w, h, q) && (IndexInRange(w, h, q); visited[Index(w, q)])
    ensures 0 <= Index(w, p) < w * h && visited[Index(w, p)]
  {
    IndexInRange(w, h, q);
    IndexInRange(w, h, p);
    CoveredHas(w, fills, Index(w, q));
    var j, r :| 0 <= j < |fills| && r in fills[j].pixels && Index(w, r) == Index(w, q);
    var g := fills[j];
    assert Blob(data, w, h, g);
    assert InBounds(w, h, r);
    IndexInjective(w, h, q, r);
    NeighboursAdjacent(p, q);
    NeighboursAdjacent(q, p);
    assert Maximal(data, w, h, g);
    assert p in g.pixels;
    InCovered(w, fills, j, p);
  }

  /** A fill over unvisited pixels shares no pixel with the earlier fills, whose pixels are the visited ones. */
  lemma FillDisjoint(data: seq<Byte>, w: nat, h: nat, visited: seq<bool>, fills: seq<Region>, region: Region)
    requires IsImage(data, w, h) && |visited| == w * h
    requires forall i | 0 <= i < w * h :: visited[i] == (i in Covered(w, fills))
    requires PairwiseDisjoint(fills)
    requires TakesUnvisited(data, w, h, visited, region.pixels)
    ensures PairwiseDisjoint(fills + [region])
  {
    var fills2 := fills + [region];
    var ps := region.pixels;
    forall i, j, p | 0 <= i < j < |fills2| && p in fills2[i].pixels ensures p !in fills2[j].pixels {
      if j == |fills| {
        assert fills2[i] == fills[i];
        InCovered(w, fills, i, p);
        if p in ps {
          var k :| 0 <= k < |ps| && ps[k] == p;
          IndexInRange(w, h, p);
        }
      } else {
        assert fills2[i] == fills[i] && fills2[j] == fills[j];
      }
    }
  }

  /** After the fill the visited flags are exactly the pixels of the fills including the new one. */
  lemma FillCovered(w: nat, visited: seq<bool>, after: seq<bool>, fills: seq<Region>, region: Region)
    requires forall i | 0 <= i < |visited| :: visited[i] == (i in Covered(w, fills))
    requires MarksTaken(w, visited, after, region.pixels)
    ensures forall i | 0 <= i < |after| :: after[i] == (i in Covered(w, fills + [region]))
  {
    assert (fills + [region])[..|fills|] == fills;
  }

  /** The fill marks its seed, so the scanned part stays covered one pixel further on. */
  lemma FillCovers(data: seq<Byte>, w: nat, h: nat, visited: seq<bool>, after: seq<bool>, region: Region, x: int, y: int)
    requires IsImage(data, w, h) && InBounds(w, h, (x, y)) && |visited| == w * h
    requires ScanCovers(data, w, h, visited, x, y)
    requires !VisitedAt(w, h, visited, (x, y)) && RedAt(data, w, h, (x, y)) > 128
    requires TakesUnvisited(data, w, h, visited, region.pixels)
    requires MarksTaken(w, visited, after, region.pixels)
    requires SeedFirst(data, w, h, visited, (x, y), region.pixels)
    ensures ScanCovers(data, w, h, after, x + 1, y)
  {
    var ps := region.pixels;
    IndexInRange(w, h, (x, y));
    assert Takeable(data, w, h, visited, (x, y));
    assert ps[0] == (x, y);
    forall q | InBounds(w, h, q) && ScannedBefore(q, x + 1, y) && RedAt(data, w, h, q) > 128
      ensures VisitedAt(w, h, after, q)
    {
      IndexInRange(w, h, q);
      if q == (x, y) {
        assert Index(w, q) in IndexSet(w, ps);
      }
    }
  }

  /**
   * `findConnectedRegions`: scans the pixels row by row; every unvisited
   * pixel with red above 128 seeds a flood fill over one shared visited
   * array, and the fills of more than 50 pixels are kept. Every bright pixel
   * ends up in exactly one fill, and each fill is closed under adjacency
   * among the pixels with red at least 128.
   */
  method FindConnectedRegions(data: seq<Byte>, w: nat, h: nat) returns (regions: seq<Region>, ghost fills: seq<Region>)
    requires IsImage(data, w, h)
    ensures regions == LargeRegions(fills)
    ensures forall r | r in regions :: |r.pixels| > 50
    ensures Blobs(data, w, h, fills)
  {
    var visited := new bool[w * h](_ => false);
    regions := [];
    fills := [];
    ScanStart(data, w, h, visited[..]);
    for y := 0 to h
      invariant ScanInvariant(data, w, h, visited[..], fills, regions)
      invariant ScanCovers(data, w, h, visited[..], 0, y)
      invariant SeedsBefore(fills, 0, y)
    {
      for x := 0 to w
        invariant ScanInvariant(data, w, h, visited[..], fills, regions)
        invariant ScanCovers(data, w, h, visited[..], x, y)
        invariant SeedsBefore(fills, x, y)
      {
        regions, fills := ScanPixel(data, w, h, visited, regions, fills, x, y);
      }
      ScanRow(data, w, h, visited[..], y);
      SeedsLater(fills, w, y, 0, y + 1);
    }
    ScanComplete(data, w, h, visited[..], fills, regions);
  }

  /**
   * The body of the scan at `(x, y)`: an unvisited pixel with red above 128
   * seeds a flood fill, which is kept when it has more than 50 pixels.
   */
  method ScanPixel(data: seq<Byte>, w: nat, h: nat, visited: array<bool>, regions: seq<Region>, ghost fills: seq<Region>, x: int, y: int)
    returns (regions': seq<Region>, ghost fills': seq<Region>)
    requires IsImage(data, w, h) && 0 <= x < w && 0 <= y < h
    requires ScanInvariant(data, w, h, visited[..], fills, regions) && ScanCovers(data, w, h, visited[..], x, y)
    requires SeedsBefore(fills, x, y)
    modifies visited
    ensures ScanInvariant(data, w, h, visited[..], fills', regions') && ScanCovers(data, w, h, visited[..], x + 1, y)
    ensures SeedsBefore(fills', x + 1, y)
  {
    IndexInRange(w, h, (x, y));
    var idx := y * w + x;
    var pixelIdx := idx * 4;
    assert VisitedAt(w, h, visited[..], (x, y)) == visited[idx];
    RedAtIndex(data, w, h, x, y);
    assert pixelIdx == (y * w + x) * 4;
    regions', fills' := regions, fills;
    if !visited[idx] && data[pixelIdx] > 128 {
      regions', fills' := TakeRegion(data, w, h, visited, regions, fills, x, y);
    } else {
      ScanPass(data, w, h, visited[..], x, y);
      SeedsLater(fills, x, y, x + 1, y);
    }
  }

  /** The flood fill from an unvisited seed with red above 128, kept when it has more than 50 pixels. */
  method TakeRegion(data: seq<Byte>, w: nat, h: nat, visited: array<bool>, regions: seq<Region>, ghost fills: seq<Region>, x: int, y: int)
    returns (regions': seq<Region>, ghost fills': seq<Region>)
    requires IsImage(data, w, h) && InBounds(w, h, (x, y))
    requires ScanInvariant(data, w, h, visited[..], fills, regions) && ScanCovers(data, w, h, visited[..], x, y)
    requires SeedsBefore(fills, x, y)
    requires !VisitedAt(w, h, visited[..], (x, y)) && RedAt(data, w, h, (x, y)) > 128
    modifies visited
    ensures ScanInvariant(data, w, h, visited[..], fills', regions') && ScanCovers(data, w, h, visited[..], x + 1, y)
    ensures SeedsBefore(fills', x + 1, y)
  {
    ghost var v := visited[..];
    var region := FloodFill(data, w, h, x, y, visited);
    ScanFill(data, w, h, v, visited[..], fills, regions, region, x, y);
    fills' := fills + [region];
    regions' := regions;
    if |region.pixels| > 50 {
      regions' := regions + [region];
    }
  }

  /** Once every row is scanned, every pixel with red above 128 lies in some fill. */
  lemma ScanComplete(data: seq<Byte>, w: nat, h: nat, visited: seq<bool>, fills: seq<Region>, regions: seq<Region>)
    requires IsImage(data, w, h)
    requires ScanInvariant(data, w, h, visited, fills, regions) && ScanCovers(data, w, h, visited, 0, h)
    ensures forall p | InBounds(w, h, p) && RedAt(data, w, h, p) > 128 :: p in AllPixels(fills)
  {
    forall p | InBounds(w, h, p) && RedAt(data, w, h, p) > 128 ensures p in AllPixels(fills) {
      IndexInRange(w, h, p);
      assert VisitedAt(w, h, visited, p);
      CoveredHas(w, fills, Index(w, p));
      var i, q :| 0 <= i < |fills| && q in fills[i].pixels && Index(w, q) == Index(w, p);
      assert Blob(data, w, h, fills[i]);
      IndexInjective(w, h, p, q);
      InAllPixels(fills, i, p);
    }
  }

  /** A fill grown from a pixel of a maximal fill lies inside it: each of its first `k` pixels does. */
  lemma {:induction false} PrefixInside(data: seq<Byte>, w: nat, h: nat, f: Region, g: Region, k: nat)
    requires IsImage(data, w, h) && f.pixels != [] && Bright(data, w, h, f.pixels) && GrowsFrom(f.pixels[0], f.pixels)
    requires Maximal(data, w, h, g)
    requires f.pixels[0] in g.pixels && k <= |f.pixels|
    ensures forall j | 0 <= j < k :: f.pixels[j] in g.pixels
  {
    if k > 0 {
      PrefixInside(data, w, h, f, g, k - 1);
      PrefixStep(data, w, h, f, g, k - 1);
    }
  }

  /** The next pixel of the fill joins the part already inside `g`. */
  lemma PrefixStep(data: seq<Byte>, w: nat, h: nat, f: Region, g: Region, k: nat)
    requires IsImage(data, w, h) && k < |f.pixels|
    requires Bright(data, w, h, f.pixels) && GrowsFrom(f.pixels[0], f.pixels)
    requires Maximal(data, w, h, g) && f.pixels[0] in g.pixels
    requires forall j | 0 <= j < k :: f.pixels[j] in g.pixels
    ensures f.pixels[k] in g.pixels
  {
    var q := f.pixels[k];
    if q != f.pixels[0] {
      var j :| 0 <= j < k && Adjacent(f.pixels[j], q);
      assert q in f.pixels;
      MaximalStep(data, w, h, g, f.pixels[j], q);
    }
  }

  /** A maximal fill holds each pixel with red at least 128 next to one of its pixels. */
  lemma MaximalStep(data: seq<Byte>, w: nat, h: nat, g: Region, a: Pixel, q: Pixel)
    requires IsImage(data, w, h) && Maximal(data, w, h, g)
    requires a in g.pixels && Adjacent(a, q) && InBounds(w, h, q) && RedAt(data, w, h, q) >= 128
    ensures q in g.pixels
  {
    NeighboursAdjacent(a, q);
  }

  /** Two fills with their exact extents over the same pixels have the same bounds. */
  lemma SameExtents(f: Region, g: Region)
    requires HasExtents(f) && HasExtents(g) && Elements(f.pixels) == Elements(g.pixels)
    ensures f.bounds == g.bounds
  {
    forall p | p in f.pixels ensures p in g.pixels {
      assert p in Elements(f.pixels);
    }
    forall p | p in g.pixels ensures p in f.pixels {
      assert p in Elements(g.pixels);
    }
  }

  /** The fill of `fills` that holds the pixel, which the cover gives. */
  lemma FillHolding(data: seq<Byte>, w: nat, h: nat, fills: seq<Region>, p: Pixel) returns (g: Region)
    requires IsImage(data, w, h) && Blobs(data, w, h, fills)
    requires InBounds(w, h, p) && RedAt(data, w, h, p) > 128
    ensures g in fills && p in g.pixels && Blob(data, w, h, g)
  {
    var i := AllPixelsHas(fills, p);
    g := fills[i];
  }

  /** Two fills of a disjoint list that share a pixel are the same fill. */
  lemma SharedPixelSameFill(fills: seq<Region>, f: Region, f': Region, p: Pixel)
    requires PairwiseDisjoint(fills) && f in fills && f' in fills && p in f.pixels && p in f'.pixels
    ensures f == f'
  {
    var i :| 0 <= i < |fills| && fills[i] == f;
    var i' :| 0 <= i' < |fills| && fills[i'] == f';
    assert !(i < i') && !(i' < i);
  }

  /**
   * The fills are fixed by the image: for any two lists that meet `Blobs`,
   * the fills at the same place have the same pixels (up to the order they
   * were taken in) and the same bounds.
   */
  lemma BlobsUnique(data: seq<Byte>, w: nat, h: nat, fills1: seq<Region>, fills2: seq<Region>)
    requires IsImage(data, w, h) && Blobs(data, w, h, fills1) && Blobs(data, w, h, fills2)
    ensures |fills1| == |fills2|
    ensures forall i | 0 <= i < |fills1| ::
      Elements(fills1[i].pixels) == Elements(fills2[i].pixels) && fills1[i].bounds == fills2[i].bounds
  {
    var s1, s2 := Seeds(fills1), Seeds(fills2);
    forall p | p in s1 ensures p in s2 {
      SeedMatched(data, w, h, fills1, fills2, p);
    }
    forall p | p in s2 ensures p in s1 {
      SeedMatched(data, w, h, fills2, fills1, p);
    }
    OrderedSameElements(s1, s2);
    forall i | 0 <= i < |fills1|
      ensures Elements(fills1[i].pixels) == Elements(fills2[i].pixels) && fills1[i].bounds == fills2[i].bounds
    {
      assert fills1[i] in fills1 && fills2[i] in fills2;
      assert s1[i] == s2[i];
      SameSeedSameFill(data, w, h, fills1[i], fills2[i]);
    }
  }

  /** A seed of one `Blobs` list is a seed of the other. */
  lemma SeedMatched(data: seq<Byte>, w: nat, h: nat, fills1: seq<Region>, fills2: seq<Region>, p: Pixel)
    requires IsImage(data, w, h) && Blobs(data, w, h, fills1) && Blobs(data, w, h, fills2)
    requires p in Seeds(fills1)
    ensures p in Seeds(fills2)
  {
    var i :| 0 <= i < |fills1| && Seeds(fills1)[i] == p;
    var g := FillMatched(data, w, h, fills1, fills2, fills1[i]);
    var j :| 0 <= j < |fills2| && fills2[j] == g;
    assert Seeds(fills2)[j] == p;
  }

  /** The fill of another `Blobs` list that holds a fill's seed has that seed too. */
  lemma FillMatched(data: seq<Byte>, w: nat, h: nat, fills1: seq<Region>, fills2: seq<Region>, f: Region) returns (g: Region)
    requires IsImage(data, w, h) && Blobs(data, w, h, fills1) && Blobs(data, w, h, fills2) && f in fills1
    ensures g in fills2 && SeedOf(g) == SeedOf(f)
  {
    assert Blob(data, w, h, f);
    g := FillHolding(data, w, h, fills2, f.pixels[0]);
    var f' := FillHolding(data, w, h, fills1, g.pixels[0]);
    SeedsAgree(data, w, h, fills1, f, g, f');
  }

  /**
   * When `g` holds the seed of `f`, and a fill `f'` of the same disjoint list
   * as `f` holds the seed of `g`, then `f` and `g` have the same pixels, and
   * the seed of each leads the other, so the seeds agree.
   */
  lemma SeedsAgree(data: seq<Byte>, w: nat, h: nat, fills: seq<Region>, f: Region, g: Region, f': Region)
    requires IsImage(data, w, h) && Blob(data, w, h, f) && Blob(data, w, h, g) && Blob(data, w, h, f')
    requires f in fills && f' in fills && PairwiseDisjoint(fills)
    requires f.pixels[0] in g.pixels && g.pixels[0] in f'.pixels
    ensures SeedOf(g) == SeedOf(f)
  {
    PrefixInside(data, w, h, f, g, |f.pixels|);
    PrefixInside(data, w, h, g, f', |g.pixels|);
    assert f.pixels[0] in f'.pixels;
    SharedPixelSameFill(fills, f, f', f.pixels[0]);
    assert g.pixels[0] in f.pixels;
    LeadersAgree(data, w, h, f, g);
  }

  /** Two fills that each hold the other's seed have the same seed, since each seed leads its fill. */
  lemma LeadersAgree(data: seq<Byte>, w: nat, h: nat, f: Region, g: Region)
    requires IsImage(data, w, h) && SeededFill(data, w, h, f) && SeededFill(data, w, h, g)
    requires SeedLeads(data, w, h, f) && SeedLeads(data, w, h, g)
    requires f.pixels[0] in g.pixels && g.pixels[0] in f.pixels
    ensures SeedOf(g) == SeedOf(f)
  {
    assert !Precedes(g.pixels[0], f.pixels[0]) && !Precedes(f.pixels[0], g.pixels[0]);
  }

  /** Two blobs with the same seed hold the same pixels and have the same bounds. */
  lemma SameSeedSameFill(data: seq<Byte>, w: nat, h: nat, f: Region, g: Region)
    requires IsImage(data, w, h) && Blob(data, w, h, f) && Blob(data, w, h, g) && SeedOf(f) == SeedOf(g)
    ensures Elements(f.pixels) == Elements(g.pixels) && f.bounds == g.bounds
  {
    PrefixInside(data, w, h, f, g, |f.pixels|);
    PrefixInside(data, w, h, g, f, |g.pixels|);
    assert Elements(f.pixels) == Elements(g.pixels) by {
      forall p | p in f.pixels ensures p in g.pixels {
        var j :| 0 <= j < |f.pixels| && f.pixels[j] == p;
      }
      forall p | p in g.pixels ensures p in f.pixels {
        var j :| 0 <= j < |g.pixels| && g.pixels[j] == p;
      }
    }
    SameExtents(f, g);
  }

  /** Two lists in strict scan order with the same elements are the same list. */
  lemma {:induction false} OrderedSameElements(a: seq<Pixel>, b: seq<Pixel>)
    requires ScanOrdered(a) && ScanOrdered(b)
    requires forall p :: p in a <==> p in b
    ensures a == b
  {
    OrderedDistinct(a);
    OrderedDistinct(b);
    ElementsSize(a);
    ElementsSize(b);
    assert Elements(a) == Elements(b);
    var n := |a|;
    if n > 0 {
      var la, lb := a[n - 1], b[n - 1];
      assert la in a && lb in b;
      var k :| 0 <= k < n && b[k] == la;
      var m :| 0 <= m < n && a[m] == lb;
      assert la == lb;
      var a', b' := a[..n - 1], b[..n - 1];
      forall p | p in a' ensures p in b' {
        var i :| 0 <= i < n - 1 && a'[i] == p;
        assert Precedes(a[i], a[n - 1]) && p in a;
        var k' :| 0 <= k' < n && b[k'] == p;
        assert k' != n - 1;
        assert b'[k'] == p;
      }
      forall p | p in b' ensures p in a' {
        var i :| 0 <= i < n - 1 && b'[i] == p;
        assert Precedes(b[i], b[n - 1]) && p in b;
        var k' :| 0 <= k' < n && a[k'] == p;
        assert k' != n - 1;
        assert a'[k'] == p;
      }
      OrderedSameElements(a', b');
      SplitLast([], a);
      SplitLast([], b);
    }
  }

  /** A list in strict scan order has no repeated pixel. */
  lemma OrderedDistinct(s: seq<Pixel>)
    requires ScanOrdered(s)
    ensures Distinct(s)
  {
    forall i, j | 0 <= i < j < |s| ensures s[i] != s[j] {
      assert Precedes(s[i], s[j]);
    }
  }

  // ---------------------------------------------------------------------------
  // Tile candidates (`detectTilesInDifference`, `extractTileImage`)
  // ---------------------------------------------------------------------------

  /** A region of tile size: more than 100 and fewer than 50000 pixels. */
  predicate TileSized(r: Region) {
    100 < |r.pixels| < 50000
  }

  /** `regions.filter(...)`: the tile-sized regions, in order. */
  function KeepTileSized(regions: seq<Region>): (ts: seq<Region>)
    ensures forall r | r in ts :: r in regions && TileSized(r)
    ensures forall r | r in regions && TileSized(r) :: r in ts
    ensures |ts| <= |regions|
  {
    if regions == [] then []
    else
      var last := regions[|regions| - 1];
      var init := regions[..|regions| - 1];
      assert regions == init + [last];
      KeepTileSized(init) + (if TileSized(last) then [last] else [])
  }

  /** The source rectangle `drawImage` copies a tile from. */
  datatype Rect = Rect(x: int, y: int, width: int, height: int)

  const CropPadding := 10

  /**
   * The crop of `extractTileImage`: the bounds widened by the padding and cut
   * to the canvas. The rectangle never leaves the canvas, and for bounds
   * inside the canvas it is non-empty and holds the whole tile.
   */
  function CropRect(canvasW: nat, canvasH: nat, b: Bounds): (r: Rect)
    ensures 0 <= r.x && r.x + r.width <= canvasW
    ensures 0 <= r.y && r.y + r.height <= canvasH
    ensures b.minX - CropPadding <= r.x && r.x + r.width <= b.maxX + 2 * CropPadding
    ensures b.minY - CropPadding <= r.y && r.y + r.height <= b.maxY + 2 * CropPadding
    ensures 0 <= b.minX <= b.maxX < canvasW ==> r.width > 0 && r.x <= b.minX && b.maxX < r.x + r.width
    ensures 0 <= b.minY <= b.maxY < canvasH ==> r.height > 0 && r.y <= b.minY && b.maxY < r.y + r.height
  {
    var minX := Max(0, b.minX - CropPadding);
    var minY := Max(0, b.minY - CropPadding);
    Rect(minX, minY, Min(canvasW - minX, b.maxX - minX + CropPadding * 2), Min(canvasH - minY, b.maxY - minY + CropPadding * 2))
  }

  // ---------------------------------------------------------------------------
  // Dominant colour (`detectTileColor`)
  // ---------------------------------------------------------------------------

  /** The colour name the classifier gives a pixel's red, green and blue bytes. */
  function PixelLabel(data: seq<Byte>, w: nat, h: nat, classify: (Byte, Byte, Byte) -> string, p: Pixel): string
    requires IsImage(data, w, h) && InBounds(w, h, p)
  {
    IndexInRange(w, h, p);
    var i := 4 * Index(w, p);
    classify(data[i], data[i + 1], data[i + 2])
  }

  /** Every pixel of `ps` lies in the image. */
  predicate InImage(w: nat, h: nat, ps: seq<Pixel>) {
    forall p | p in ps :: InBounds(w, h, p)
  }

  /** The colour name of each pixel of the list. */
  function PixelLabels(data: seq<Byte>, w: nat, h: nat, classify: (Byte, Byte, Byte) -> string, ps: seq<Pixel>): (ls: seq<string>)
    requires IsImage(data, w, h) && InImage(w, h, ps)
    ensures |ls| == |ps|
    ensures forall k | 0 <= k < |ps| :: ls[k] == PixelLabel(data, w, h, classify, ps[k])
  {
    if ps == [] then [] else [PixelLabel(data, w, h, classify, ps[0])] + PixelLabels(data, w, h, classify, ps[1..])
  }

  /** The `for ... of Object.entries` argmax: the first label whose count beats every earlier one, with its count. */
  function Pick(keys: seq<string>, counts: multiset<string>): (string, nat) {
    if keys == [] then ("unknown", 0)
    else
      var best := Pick(keys[..|keys| - 1], counts);
      var last := keys[|keys| - 1];
      if counts[last] > best.1 then (last, counts[last]) else best
  }

  /** The colour name `detectTileColor` returns for these pixel labels. */
  function Dominant(ls: seq<string>): string {
    Pick(FirstOccurrences(ls), multiset(ls)).0
  }

  /**
   * Over keys with positive counts, `Pick` returns the key at some position
   * `j` with the largest count, and every key before `j` counts strictly less.
   */
  lemma {:induction false} PickIsFirstMaximum(keys: seq<string>, counts: multiset<string>) returns (j: nat)
    requires forall k | k in keys :: counts[k] > 0
    ensures keys == [] ==> Pick(keys, counts) == ("unknown", 0)
    ensures keys != [] ==> && j < |keys| && Pick(keys, counts) == (keys[j], counts[keys[j]])
                           && (forall t | 0 <= t < |keys| :: counts[keys[t]] <= counts[keys[j]])
                           && (forall t | 0 <= t < j :: counts[keys[t]] < counts[keys[j]])
  {
    j := 0;
    if keys != [] {
      var init := keys[..|keys| - 1];
      var last := keys[|keys| - 1];
      assert forall k | k in init :: k in keys;
      var i := PickIsFirstMaximum(init, counts);
      if init == [] {
        j := 0;
      } else if counts[last] > counts[init[i]] {
        j := |keys| - 1;
        assert forall t | 0 <= t < |init| :: keys[t] == init[t];
      } else {
        j := i;
        assert forall t | 0 <= t < |init| :: keys[t] == init[t];
      }
    }
  }

  /**
   * `detectTileColor` picks a most frequent label: among the labels of
   * largest count, the one inserted first; with no pixels it is `'unknown'`.
   */
  lemma DominantIsFirstMode(ls: seq<string>) returns (keys: seq<string>, j: nat)
    ensures keys == FirstOccurrences(ls)
    ensures ls == [] ==> Dominant(ls) == "unknown"
    ensures ls != [] ==> && j < |keys| && Dominant(ls) == keys[j] && Dominant(ls) in ls
                         && (forall l | l in ls :: multiset(ls)[l] <= multiset(ls)[Dominant(ls)])
                         && (forall t | 0 <= t < j :: multiset(ls)[keys[t]] < multiset(ls)[Dominant(ls)])
  {
    keys := FirstOccurrences(ls);
    j := PickIsFirstMaximum(keys, multiset(ls));
    if ls != [] {
      assert ls[0] in keys;
      forall l | l in ls ensures multiset(ls)[l] <= multiset(ls)[Dominant(ls)] {
        var t :| 0 <= t < |keys| && keys[t] == l;
      }
    }
  }

  /**
   * `detectTileColor`: counts the labels of the tile's pixels in an object
   * keyed by label, then keeps the first label whose count is strictly
   * larger than the largest so far.
   */
  method DetectTileColor(data: seq<Byte>, w: nat, h: nat, classify: (Byte, Byte, Byte) -> string, ps: seq<Pixel>)
    returns (dominantColor: string)
    requires IsImage(data, w, h) && forall p | p in ps :: InBounds(w, h, p)
    ensures dominantColor == Dominant(PixelLabels(data, w, h, classify, ps))
  {
    var keys, colorCounts := CountColors(data, w, h, classify, ps);
    dominantColor := PickColor(keys, colorCounts, multiset(PixelLabels(data, w, h, classify, ps)));
  }

  /** The `colorCounts` object: the labels in order of first occurrence, each with its number of pixels. */
  method CountColors(data: seq<Byte>, w: nat, h: nat, classify: (Byte, Byte, Byte) -> string, ps: seq<Pixel>)
    returns (keys: seq<string>, colorCounts: map<string, nat>)
    requires IsImage(data, w, h) && forall p | p in ps :: InBounds(w, h, p)
    ensures keys == FirstOccurrences(PixelLabels(data, w, h, classify, ps))
    ensures forall l :: l in colorCounts <==> l in keys
    ensures forall l | l in colorCounts :: colorCounts[l] == multiset(PixelLabels(data, w, h, classify, ps))[l]
  {
    ghost var ls := PixelLabels(data, w, h, classify, ps);
    keys := [];
    colorCounts := map[];
    for k := 0 to |ps|
      invariant Counted(ls[..k], keys, colorCounts)
    {
      var colorName := ClassifyPixel(data, w, h, classify, ps[k]);
      assert ls[k] == colorName;
      assert ls[..k + 1] == ls[..k] + [colorName];
      CountedStep(ls[..k], colorName, keys, colorCounts);
      if colorName in colorCounts {
        colorCounts := colorCounts[colorName := colorCounts[colorName] + 1];
      } else {
        keys := keys + [colorName];
        colorCounts := colorCounts[colorName := 1];
      }
    }
    assert ls[..|ps|] == ls;
  }

  /** The colour name of the pixel at `p`, whose red, green and blue bytes start at `(y * width + x) * 4`. */
  method ClassifyPixel(data: seq<Byte>, w: nat, h: nat, classify: (Byte, Byte, Byte) -> string, p: Pixel)
    returns (colorName: string)
    requires IsImage(data, w, h) && InBounds(w, h, p)
    ensures colorName == PixelLabel(data, w, h, classify, p)
  {
    IndexInRange(w, h, p);
    var idx := (p.1 * w + p.0) * 4;
    assert idx == 4 * Index(w, p);
    colorName := classify(data[idx], data[idx + 1], data[idx + 2]);
  }

  /** `counts` holds, for the labels `seen` so far, their first occurrences as keys and their numbers. */
  ghost predicate Counted(seen: seq<string>, keys: seq<string>, counts: map<string, nat>) {
    && keys == FirstOccurrences(seen)
    && (forall l :: l in counts <==> l in keys)
    && (forall l | l in counts :: counts[l] == multiset(seen)[l])
  }

  /** Counting one more label: it becomes a key when new, and its count goes up by one. */
  lemma CountedStep(seen: seq<string>, l: string, keys: seq<string>, counts: map<string, nat>)
    requires Counted(seen, keys, counts)
    ensures l in counts ==> Counted(seen + [l], keys, counts[l := counts[l] + 1])
    ensures l !in counts ==> Counted(seen + [l], keys + [l], counts[l := 1])
  {
    FirstOccurrencesAppend(seen, l);
    assert multiset(seen + [l]) == multiset(seen) + multiset{l};
    if l in counts {
      CountedAgain(seen, l, keys, counts);
    } else {
      CountedNew(seen, l, keys, counts);
    }
  }

  lemma CountedAgain(seen: seq<string>, l: string, keys: seq<string>, counts: map<string, nat>)
    requires Counted(seen, keys, counts) && l in counts
    requires FirstOccurrences(seen + [l]) == keys
    requires multiset(seen + [l]) == multiset(seen) + multiset{l}
    ensures Counted(seen + [l], keys, counts[l := counts[l] + 1])
  {
    var m := multiset(seen + [l]);
    var counts' := counts[l := counts[l] + 1];
    forall k | k in counts' ensures counts'[k] == m[k] {
      if k != l { assert counts'[k] == counts[k]; }
    }
  }

  lemma CountedNew(seen: seq<string>, l: string, keys: seq<string>, counts: map<string, nat>)
    requires Counted(seen, keys, counts) && l !in counts
    requires FirstOccurrences(seen + [l]) == keys + [l]
    requires multiset(seen + [l]) == multiset(seen) + multiset{l}
    ensures Counted(seen + [l], keys + [l], counts[l := 1])
  {
    var m := multiset(seen + [l]);
    assert l !in seen;
    var counts' := counts[l := 1];
    forall k | k in counts' ensures counts'[k] == m[k] {
      if k != l { assert counts'[k] == counts[k]; }
    }
  }

  /** The argmax loop of `detectTileColor` over the keys in insertion order. */
  method PickColor(keys: seq<string>, colorCounts: map<string, nat>, ghost counts: multiset<string>)
    returns (dominantColor: string)
    requires forall l | l in keys :: l in colorCounts && colorCounts[l] == counts[l]
    ensures dominantColor == Pick(keys, counts).0
  {
    var maxCount := 0;
    dominantColor := "unknown";
    for i := 0 to |keys|
      invariant (dominantColor, maxCount) == Pick(keys[..i], counts)
    {
      assert keys[..i + 1][..i] == keys[..i];
      if colorCounts[keys[i]] > maxCount {
        maxCount := colorCounts[keys[i]];
        dominantColor := keys[i];
      }
    }
    assert keys[..|keys|] == keys;
  }

  // ---------------------------------------------------------------------------
  // Detection pipeline and score estimate
  // ---------------------------------------------------------------------------

  /** A detected tile: its region and the colour name `detectTileColor` gave it. */
  datatype DetectedTile = DetectedTile(region: Region, color: string)

  /**
   * `detectTilesInDifference`: the tile-sized connected regions of the
   * difference mask, each with the dominant colour of its pixels in the
   * current photo (of the same size).
   */
  method DetectTilesInDifference(diff: seq<Byte>, current: seq<Byte>, w: nat, h: nat, classify: (Byte, Byte, Byte) -> string)
    returns (tiles: seq<DetectedTile>, ghost fills: seq<Region>)
    requires IsImage(diff, w, h) && IsImage(current, w, h)
    ensures Blobs(diff, w, h, fills)
    ensures |tiles| == |KeepTileSized(LargeRegions(fills))|
    ensures forall i | 0 <= i < |tiles| :: tiles[i].region == KeepTileSized(LargeRegions(fills))[i]
    ensures forall t | t in tiles :: && TileSized(t.region) && Blob(diff, w, h, t.region)
                                     && (forall p | p in t.region.pixels :: InBounds(w, h, p))
                                     && t.color == Dominant(PixelLabels(current, w, h, classify, t.region.pixels))
  {
    var regions;
    regions, fills := FindConnectedRegions(diff, w, h);
    var sized := KeepTileSized(regions);
    SizedAreSeeded(diff, w, h, fills);
    assert forall i | 0 <= i < |sized| :: InImage(w, h, sized[i].pixels) by {
      forall i | 0 <= i < |sized| ensures sized[i] in sized { }
    }
    tiles := ColorTiles(current, w, h, classify, sized);
    forall t | t in tiles
      ensures && TileSized(t.region) && Blob(diff, w, h, t.region)
              && (forall p | p in t.region.pixels :: InBounds(w, h, p))
              && t.color == Dominant(PixelLabels(current, w, h, classify, t.region.pixels))
    {
      var k :| 0 <= k < |tiles| && tiles[k] == t;
      assert sized[k] in sized;
    }
  }

  /** `tiles.forEach(tile => tile.color = detectTileColor(tile, currentData))`. */
  method ColorTiles(current: seq<Byte>, w: nat, h: nat, classify: (Byte, Byte, Byte) -> string, sized: seq<Region>)
    returns (tiles: seq<DetectedTile>)
    requires IsImage(current, w, h)
    requires forall i | 0 <= i < |sized| :: InImage(w, h, sized[i].pixels)
    ensures |tiles| == |sized|
    ensures forall k | 0 <= k < |sized| :: tiles[k].region == sized[k]
                                           && tiles[k].color == Dominant(PixelLabels(current, w, h, classify, sized[k].pixels))
  {
    tiles := [];
    for i := 0 to |sized|
      invariant |tiles| == i
      invariant forall k | 0 <= k < i :: tiles[k].region == sized[k]
                                         && tiles[k].color == Dominant(PixelLabels(current, w, h, classify, sized[k].pixels))
    {
      var tile := sized[i];
      assert InImage(w, h, tile.pixels);
      var color := DetectTileColor(current, w, h, classify, tile.pixels);
      tiles := tiles + [DetectedTile(tile, color)];
    }
  }

  /** The tile-sized regions are blobs of the scan; in particular their pixels lie in the image. */
  lemma SizedAreSeeded(data: seq<Byte>, w: nat, h: nat, fills: seq<Region>)
    requires IsImage(data, w, h)
    requires forall f | f in fills :: Blob(data, w, h, f)
    ensures forall r | r in KeepTileSized(LargeRegions(fills)) ::
              && TileSized(r) && Blob(data, w, h, r)
              && forall p | p in r.pixels :: InBounds(w, h, p)
  {
  }

  /**
   * `calculateScoreFromTiles` for `n` detected tiles: no tiles score 0; a
   * line of `n` is estimated as `3n` long and gets the bonus of 6 once that
   * reaches 6; tiles off a line score 3 each.
   */
  function EstimateScore(n: nat, isLine: bool): (score: nat)
    ensures n == 0 ==> score == 0
    ensures isLine && n >= 2 ==> score == 3 * n + 6
    ensures !(isLine && n >= 2) ==> score == 3 * n
  {
    if n == 0 then 0
    else if isLine then
      var estimatedLineLength := n + 2 * n;
      if estimatedLineLength >= 6 then estimatedLineLength + 6 else estimatedLineLength
    else n * 3
  }

  /**
   * `detectAndScoreTiles` without the optional classifier: the difference
   * mask of the two photos, the tiles found in it and the estimated score.
   * Whether the tiles lie on a line is given, as the centre-based line
   * test decides it.
   */
  method DetectAndScoreTiles(prev: seq<Byte>, curr: seq<Byte>, w: nat, h: nat,
                             classify: (Byte, Byte, Byte) -> string, isLine: bool)
    returns (score: nat, tiles: seq<DetectedTile>, ghost diff: seq<Byte>, ghost fills: seq<Region>)
    requires IsImage(prev, w, h) && IsImage(curr, w, h)
    ensures diff == Mask(prev, curr) && IsImage(diff, w, h)
    ensures Blobs(diff, w, h, fills)
    ensures |tiles| == |KeepTileSized(LargeRegions(fills))|
    ensures forall i | 0 <= i < |tiles| :: tiles[i].region == KeepTileSized(LargeRegions(fills))[i]
    ensures forall t | t in tiles :: && TileSized(t.region)
                                     && (forall p | p in t.region.pixels :: InBounds(w, h, p))
                                     && t.color == Dominant(PixelLabels(curr, w, h, classify, t.region.pixels))
    ensures score == EstimateScore(|tiles|, isLine)
  {
    var diffData, changedPixels := DiffMask(prev, curr);
    diff := diffData[..];
    tiles, fills := DetectTilesInDifference(diffData[..], curr, w, h, classify);
    score := EstimateScore(|tiles|, isLine);
  }
}

# Qwirkle counter, modelled in Dafny

The Qwirkle counter is a browser app that keeps the score of a game of
Qwirkle. Players take a photo of the board after each move. The app compares
it with the photo before and estimates the points of the move. It also
collects labelled photos of single tiles to train a tile classifier. This
project models the sequential logic of that app and proves properties of it:

- **Scoring** (`scoring.dfy`, from `scoring.js`): the exact rule engine.
  - A `QwirkleBoard` class maps integer cells to tiles.
  - `validateMove` checks the legality of a placement and returns one of
    eight error messages.
  - `tilesFormLine` and `tilesFormValidLine` are the line tests.
  - `getLine` walks the run of tiles through a cell.
  - `calculateMoveScore` scores each run once, adds the Qwirkle bonus of 6
    for a run of six, and gives 1 point for an isolated tile.
- **Image processing** (`image_processing.dfy`, from `imageProcessing.js`):
  - the difference mask of two photos;
  - the stack-based flood fill and the raster scan that finds connected
    regions over one shared `visited` array;
  - the tile size filter and the crop rectangle of a tile;
  - the dominant colour label of a tile;
  - the score estimate of `calculateScoreFromTiles`.
- **Grid splitter** (`grid_splitter.dfy`, from `gridSplitter.js`): a photo
  of many tiles is cut into single tiles.
  - The Sobel edge pass and the inversion.
  - The near-square region filter and the padded crop.
  - The labelling state of the page, where the save button requires a
    colour and a shape for every tile.
  - The batch of training records that saving builds.
- **Training data** (`training_data.dfy`, from `trainingData.js`):
  - the list operations of `TrainingDataManager`;
  - its storage as numbered chunks of JSON text in `localStorage`, with the
    save/load round trip;
  - the filename pattern of the batch upload.
- **Game bookkeeping** (`app.dfy`, from `app.js`):
  - `gameState` with its players, turn records, current player, photos and
    history;
  - the manual score box;
  - the score listing sorted by descending score.
- Shared pieces:
  - `text.dfy` holds the JavaScript string operations the core relies on:
    `${n}`, `parseInt`, `trim` and `toLowerCase`.
  - `sequences.dfy` holds facts about distinct elements and first
    occurrences.
  - `numbers.dfy` holds `Math.min` and `Math.max`.
  - `wrappers.dfy` holds `Option`.

Modelling choices:

- **Form of the model.** Objects whose fields the source updates are classes:
  `QwirkleBoard`, `TrainingDataManager`, the grid splitter page
  (`GridSession`) and `gameState` (`Game`). Their methods name what they
  modify. Loops are methods with loop invariants, proved against
  specification functions. Expressions are functions.
- **Board keys.** The board's `Map` is keyed by the text `x,y`. The model
  keys it by the pair `(x, y)`, which the text determines.
- **Duplicate check.** The duplicate check compares the texts `color-shape`.
  The model keeps that comparison literally. `Scoring.KeyInjective` proves
  that it is pair equality on (color, shape) when shape labels contain no
  `-`. `Scoring.StandardShapesHaveNoDash` proves this for the six standard
  shapes.
- **Photos.** Images are RGBA byte sequences of `4 * width * height` entries,
  or arrays where the source writes a buffer.
- **Floating point.** Every float comparison in the core is replaced by an
  integer test that agrees with it on every input:
  - `size < W * H / 3` becomes `3 * size < W * H`;
  - `sqrt(gx² + gy²) > 50` becomes `gx² + gy² > 2500`;
  - `0.5 < w / h < 2` is decided by the sign of `h`, and is false for
    `h = 0`;
  - the region centre `(min + max) / 2` is a `real`.
- **Parameters.** Foreign code and non-determinism enter as parameters:
  - `classifyColor` is an abstract function;
  - `JSON.stringify`/`JSON.parse` are `encode`/`decode` functions;
  - `toDataURL` of a crop is an `encodeCrop` function;
  - the ids and timestamps from `Date.now() + Math.random()` are `Stamp`
    values;
  - the `checkIfLine` decision is a boolean;
  - a failed `detectAndScoreTiles` call is `detected == None`.
- **Guarantees without a clause.** `ValidateMove` and `CalculateMoveScore`
  have no `modifies` clause. Dafny therefore guarantees that the board
  passed in is unchanged, and they work on a fresh copy as the source does.

Behaviours of the source that the model keeps as written:

- **Gaps are never rejected.** The gap scan of `tilesFormLine`
  (scoring.js:140-155) returns true on every path. A collinear placement
  with a gap is therefore accepted on an empty board. On a later move it is
  accepted too, when each new tile's runs are fine.
  `Scoring.GappedMoveAccepted` shows such a move: the red square at (1,0)
  and the red star at (3,0), next to a red circle at (0,0).
- **The line estimate gets the bonus early.** `calculateScoreFromTiles`
  adds the Qwirkle bonus whenever the estimated line length `3n` reaches 6.
  That happens for any line of two or more detected tiles.
- **The grid crop keeps its width when its edge is clamped.** Both crops are
  clamped to the canvas: the left and top edges by `Math.max(0, …)` and the
  width and height by `Math.min` of the room left on the canvas. The grid
  crop (gridSplitter.js:96-99) takes the extent plus twice the padding as
  its width, however far the left edge was moved in at 0. So a tile near
  the left border gets more room on its right. The move-photo crop
  (imageProcessing.js:107-110) instead measures its width from the clamped
  edge.
- **`parseInt` reads hexadecimal.** `parseInt` without a radix reads `0x…`
  as hexadecimal. `Text.ParseInt` does the same.

## Model

| member | source | states |
|---|---|---|
| Scoring.StandardShapesHaveNoDash | scoring.js:4 | no standard shape label contains `-`, the assumption under which the text comparison is pair equality |
| Scoring.KeyInjective | scoring.js:19-25 | for dash-free shapes, `toString` texts are equal exactly when `equals` holds (same shape and same color) |
| Scoring.QwirkleBoard.constructor | scoring.js:32-34 | a new board holds no tiles |
| Scoring.QwirkleBoard.AddTile | scoring.js:36-39 | the tile is stored at its cell, replacing any tile there; a new cell is appended to the insertion order |
| Scoring.QwirkleBoard.GetTile | scoring.js:41-43 | a tile is returned exactly for an occupied cell, the one stored there, and on a valid board it lies at the cell asked for |
| Scoring.QwirkleBoard.HasTile | scoring.js:45-47 | `hasTile` holds exactly when `getTile` finds a tile |
| Scoring.QwirkleBoard.GetAllTiles | scoring.js:49-51 | returns the tiles in insertion order: entry `j` is the tile at the `j`-th cell placed, one per occupied cell, and exactly the tiles on the board |
| Scoring.QwirkleBoard.Clone | scoring.js:53-59 | a fresh board with the same tiles in the same insertion order |
| Scoring.FormsLineFailsIff | scoring.js:128-158 | `tilesFormLine` is false exactly when two tiles differ in x and two tiles differ in y; a single tile or a gapped collinear set passes |
| Scoring.FormsValidLineIsQwirkleLine | scoring.js:163-183 | with dash-free shapes, `tilesFormValidLine` holds exactly for a non-empty line that is all one color or all one shape with no tile kind twice |
| Scoring.ValidLineNotSameColorAndShape | scoring.js:163-183 | a valid line of two or more tiles is never both one color and one shape |
| Scoring.GetLine | scoring.js:188-214 | the two `while` loops return `Line`, the run through the cell along the axis |
| Scoring.LineIsMaximalRun | scoring.js:188-214 | the line holds the tile at the cell, lists consecutive occupied cells in increasing order, and the cells just before and after it are empty |
| Scoring.Place | scoring.js:102-103 | adding the new tiles occupies exactly the old cells plus the new tiles' cells and leaves the other cells as they were |
| Scoring.PlaceStores | scoring.js:102-103 | new tiles on distinct cells are each stored at their own cell |
| Scoring.PlaceOnCopy | scoring.js:102-103 | the test board is a fresh copy holding the board's tiles plus the new ones |
| Scoring.AnyOccupied | scoring.js:74-78 | the loop finds an occupied cell exactly when some new tile's cell is on the board |
| Scoring.CheckPlacedLines | scoring.js:105-120 | the per-tile loop returns the first failing tile's error, in the order horizontal, vertical, length |
| Scoring.LinesErrorNone | scoring.js:109-119 | a tile passes exactly when each of its runs longer than 1 is a valid line and neither is longer than 6 |
| Scoring.CheckLinesAccepts | scoring.js:105-122 | the line checks accept exactly when every new tile passes |
| Scoring.ValidateMove | scoring.js:65-123 | the method returns `ValidateSpec`: the checks in the source's order with the source's error for each |
| Scoring.FirstMoveRule | scoring.js:66-87 | on an empty board a placement is legal exactly when it is in one line and `tilesFormValidLine` holds; no connection, contiguity or length test is made |
| Scoring.LaterMoveRule | scoring.js:65-123 | on a non-empty board a placement is legal exactly when it is non-empty, in one line, on empty cells, touches a tile, and every new tile's runs pass once placed |
| Scoring.OccupiedCellRejected | scoring.js:74-78 | a placement in one line that uses an occupied cell is rejected with `Position already occupied` |
| Scoring.MixedFirstLineRejected | scoring.js:81-86 | a first move of a red circle and a blue square is rejected as not a valid line |
| Scoring.GappedMoveAccepted | scoring.js:128-158 | a later move with an empty cell between its two tiles is accepted, because `tilesFormLine` ignores gaps |
| Scoring.ScorePlacedTiles | scoring.js:229-273 | the scoring loop's total is `ScoreTiles` on the test board |
| Scoring.CalculateMoveScore | scoring.js:219-276 | a rejected move gives score 0 and its error; an accepted one gives the score of its tiles on a copy with them placed |
| Scoring.ScoredKeys | scoring.js:229-273 | the `scoredLines` set ends as exactly the keys of the rows and columns of more than one tile through the new tiles |
| Scoring.ScoreAccounting | scoring.js:229-273 | the total is the sum, over a list of distinct keys that are exactly the rows and columns of more than one tile through the new tiles, of each run's length plus 6 for a run of six, plus 1 per isolated tile |
| Scoring.ScoreTilesAtLeastOne | scoring.js:233-273 | placed tiles always score at least 1 |
| Scoring.AcceptedMoveScoresAtLeastOne | scoring.js:219-276 | an accepted move never scores 0 |
| Scoring.ThreeRedTilesScoreThree | scoring.js:219-276 | red circle, square and diamond at (0,0), (1,0), (2,0) on an empty board are accepted and score 3 |
| Scoring.QwirkleScoresTwelve | scoring.js:244-246 | the six red shapes in a row on an empty board score 6 plus the bonus of 6 |
| ImageProcessing.MaskPixel | imageProcessing.js:40-60 | each mask pixel is (255,255,255,255) exactly when `abs(dr)+abs(dg)+abs(db) > 30`, otherwise (0,0,0,255) |
| ImageProcessing.ChangedIsWhite | imageProcessing.js:47-48 | the count of changed pixels equals the count of white pixels in the mask |
| ImageProcessing.DiffMask | imageProcessing.js:37-60 | the loop writes the mask into a fresh buffer and counts the changed pixels |
| ImageProcessing.IndexInjective | imageProcessing.js:164-165 | distinct pixels of the image have distinct positions `y * width + x` |
| ImageProcessing.NeighboursAdjacent | imageProcessing.js:211-215 | the four pushed neighbours are exactly the orthogonally adjacent pixels |
| ImageProcessing.FloodFill | imageProcessing.js:183-224 | takes only unvisited in-bounds pixels with red at least 128, never twice; marks exactly those visited; grows from the seed by adjacency; stops only at settled pixels; the bounds are the exact least and greatest coordinates of the pixels taken, each reached by a pixel, or the seed point when none is taken; the centre is the middle of the bounds |
| ImageProcessing.FillMaximal | imageProcessing.js:183-224 | a fill started by the scan is closed: every in-bounds neighbour with red at least 128 of one of its pixels is in it |
| ImageProcessing.LargeRegions | imageProcessing.js:170-172 | keeps exactly the fills of more than 50 pixels, in order |
| ImageProcessing.ScanPixel | imageProcessing.js:162-176 | one step of the raster scan keeps the fills seeded, closed and with exact bounds, pairwise disjoint and equal to the visited pixels, with their seeds in scan order and all before the cursor, and covers every pixel up to the cursor with red above 128 |
| ImageProcessing.TakeRegion | imageProcessing.js:168-173 | the flood fill from an unvisited seed with red above 128 is appended to the fills, and to the regions when it has more than 50 pixels, keeping the same scan invariant one pixel further on |
| ImageProcessing.FindConnectedRegions | imageProcessing.js:156-178 | the fills are `Blobs`: each is seeded at a pixel with red above 128, grows from it by adjacency over pixels with red at least 128, is closed under that adjacency, has exact bounds and centre, and no pixel of it with red above 128 comes before its seed in the scan; they are pairwise disjoint, cover every pixel with red above 128 and come in the raster order of their seeds; the regions are the fills of more than 50 pixels, in that order |
| ImageProcessing.BlobsUnique | imageProcessing.js:156-224 | any two fill lists that are `Blobs` of the same image have the same length, and the fills at each position have the same pixel sets and the same bounds |
| ImageProcessing.ScanComplete | imageProcessing.js:162-177 | once the scan ends, every pixel with red above 128 lies in some fill |
| ImageProcessing.KeepTileSized | imageProcessing.js:133-137 | keeps exactly the regions with `100 < size < 50000`, in order |
| ImageProcessing.CropRect | imageProcessing.js:105-110 | with padding 10, the crop lies in the canvas, stays within the padded bounds, and for bounds inside the canvas is non-empty and covers them |
| ImageProcessing.PickIsFirstMaximum | imageProcessing.js:245-253 | the strict `>` scan returns a key of largest count at a position before which every key counts less, or `unknown` when there are none |
| ImageProcessing.DominantIsFirstMode | imageProcessing.js:229-256 | the dominant label is `unknown` for no pixels, otherwise a label of maximal count, and among those the first inserted |
| ImageProcessing.ClassifyPixel | imageProcessing.js:235-241 | the byte index `(y * width + x) * 4` stays in the image and gives the pixel's entry in `PixelLabels` |
| ImageProcessing.CountColors | imageProcessing.js:230-243 | the `colorCounts` loop ends with the labels in first-occurrence order and the count of each |
| ImageProcessing.PickColor | imageProcessing.js:245-255 | the argmax loop returns `Pick` over the keys in insertion order |
| ImageProcessing.DetectTileColor | imageProcessing.js:229-256 | returns the dominant label of the tile's pixels |
| ImageProcessing.ColorTiles | imageProcessing.js:146-148 | each kept region gets the dominant colour of its pixels in the current photo |
| ImageProcessing.DetectTilesInDifference | imageProcessing.js:125-151 | the fills of the mask are `Blobs`, so they come in the raster order of their seeds; the tiles are, in that order, exactly the tile-sized ones among its fills of more than 50 pixels, each within the image and with the dominant colour of its pixels in the current photo |
| ImageProcessing.EstimateScore | imageProcessing.js:303-335 | 0 for no tiles, `3n + 6` for a line of two or more, `3n` otherwise (so 3 for one tile) |
| ImageProcessing.DetectAndScoreTiles | imageProcessing.js:10-88 | the mask is `Mask(prev, curr)` and its fills are `Blobs`; the tiles are, in order, the tile-sized fills of more than 50 pixels, each coloured by its dominant label; the score is the estimate for that number of tiles |
| GridSplitter.SobelPixel | gridSplitter.js:138-155 | one interior pixel gets 255 in its colour bytes when `gx² + gy² > 2500`, else 0, and alpha 255; no other byte changes |
| GridSplitter.SobelPass | gridSplitter.js:135-157 | the nested loops leave each interior pixel's `SobelByte` in a fresh zero-filled buffer and never write a border pixel |
| GridSplitter.Invert | gridSplitter.js:160-164 | every colour byte becomes 255 minus its value and every alpha byte is kept |
| GridSplitter.PreprocessForTileDetection | gridSplitter.js:121-167 | the result is a fresh buffer of the input's length whose every byte is `EdgeByte`; the input is only read |
| GridSplitter.EdgeByteValues | gridSplitter.js:135-164 | an interior pixel is black and opaque exactly on an edge and white and opaque elsewhere; a border pixel is white with alpha 0 |
| GridSplitter.EdgeImageBright | gridSplitter.js:59-69 | on the edge image the region finder takes exactly the pixels that are not interior edge pixels |
| GridSplitter.AspectOfExtents | gridSplitter.js:73-82 | for region extents, the aspect test holds exactly when `height < 2 * width` and `width < 2 * height`, which excludes 0 |
| GridSplitter.GridCandidates | gridSplitter.js:72-83 | keeps exactly the regions over 1000 pixels, under a third of the canvas and roughly square |
| GridSplitter.GridCrop | gridSplitter.js:95-99 | with padding 20, the crop lies in the canvas, stays within the padded bounds, and for bounds inside the canvas is non-empty and covers them |
| GridSplitter.ExtractTiles | gridSplitter.js:93-113 | one tile per kept region, in order, cut by `GridCrop`, without a shape |
| GridSplitter.ExtractedTiles | gridSplitter.js:93-113 | every cut-out tile has no shape, carries its region's bounds, and comes from a region the filter accepts |
| GridSplitter.DetectAndExtractTiles | gridSplitter.js:48-116 | the edge image is `EdgeByte` of the photo; its fills are `Blobs` (closed, disjoint, covering, exact bounds); the kept regions are the grid candidates among the fills of more than 50 pixels; one tile is cut per kept region, in order |
| GridSplitter.SaveVerdictMatchesButton | gridSplitter.js:227-252 | saving goes ahead exactly when the button would be enabled; a missing colour is reported before missing shapes |
| GridSplitter.GridRecordsLabels | gridSplitter.js:257-264 | each record carries its tile's image, the colour, the tile's non-empty shape and the label `color-shape` |
| GridSplitter.GridSession.constructor | gridSplitter.js:4-5 | no photo, no tiles and no colour |
| GridSplitter.GridSession.ProcessGridImage | gridSplitter.js:10-43 | the photo is remembered; the tiles are those of `DetectAndExtractTiles` for the photo (the edge image is `EdgeByte` of it, its fills are `Blobs`, one tile is cut per grid candidate among the fills of more than 50 pixels, in order, without a shape); they replace the detected tiles unless none were found |
| GridSplitter.GridSession.CheckGridComplete | gridSplitter.js:227-234 | the button is enabled exactly when every tile has a non-empty shape and a colour is chosen |
| GridSplitter.GridSession.SelectColor | gridSplitter.js:297-302 | a colour change stores the colour and updates the button |
| GridSplitter.GridSession.UpdateGridTileLabel | gridSplitter.js:208-222 | only the chosen tile changes: a non-empty choice becomes its shape, the empty one removes it; then the button is updated |
| GridSplitter.GridSession.CancelGrid | gridSplitter.js:288-294 | forgets the photo, the tiles and the colour |
| GridSplitter.GridSession.SaveGridTiles | gridSplitter.js:239-283 | refused with no change without a colour or with an unlabelled tile; otherwise appends one record per tile in one batch, saves, and clears the grid |
| TrainingData.WithoutId | trainingData.js:33 | keeps exactly the records whose id differs, each as many times as it occurs, and returns the list unchanged when no record has the id |
| TrainingData.WithoutIdConcat | trainingData.js:33 | filtering a joined list is joining the filtered parts, so the kept records stay in their order |
| TrainingData.WithLabel | trainingData.js:42 | keeps exactly the records with the label, each as many times as it occurs |
| TrainingData.WithLabelConcat | trainingData.js:42 | filtering a joined list is joining the filtered parts, so the kept records stay in their order |
| TrainingData.GroupedIsByLabel | trainingData.js:48-59 | the grouping has a group exactly for each label that occurs, holding that label's records in order |
| TrainingData.LabelCountsTotal | trainingData.js:64-86 | the per-label counts add up to the number of records |
| TrainingData.ChunkKeys | trainingData.js:142-145 | chunk keys are distinct for distinct chunks and never the key of the count |
| TrainingData.ChunksProperties | trainingData.js:133-140 | there are `ceil(length / 500000)` non-empty chunks of at most 500000 characters, all full but the last, joining back to the text |
| TrainingData.SplitIntoChunks | trainingData.js:136-140 | the stepping `substring` loop yields `Chunks` |
| TrainingData.WriteChunksContents | trainingData.js:142-145 | after the writes each chunk is under its key and every other key is unchanged |
| TrainingData.JoinChunks | trainingData.js:166-169 | the loop appends chunks `0 .. n-1`, a missing one as empty text |
| TrainingData.NoCountLoadsEmpty | trainingData.js:159-164 | with no recorded count, loading gives the empty list |
| TrainingData.SaveLoadRoundTrip | trainingData.js:131-169 | after a save, the count reads back as the number of chunks and joining them gives the saved text, whatever stale chunks were stored |
| TrainingData.ImagesRoundTrip | trainingData.js:131-177 | a list whose JSON text parses back is loaded back as it was saved |
| TrainingData.TrainingDataManager.constructor | trainingData.js:5-8 | the manager starts with the list loaded from storage |
| TrainingData.TrainingDataManager.AddImage | trainingData.js:13-27 | appends exactly one record labelled `color-shape`, keeps the earlier ones, saves, and returns the record |
| TrainingData.TrainingDataManager.RemoveImage | trainingData.js:32-35 | the list becomes `WithoutId` of the old list, which drops exactly the records with the id and keeps the rest with their multiplicities and order; then it is saved |
| TrainingData.TrainingDataManager.GetImagesByLabel | trainingData.js:40-43 | `WithLabel` of the list for `color-shape`: exactly the records with that label, each as many times as it occurs, in order |
| TrainingData.TrainingDataManager.GetGroupedImages | trainingData.js:48-59 | labels in first-occurrence order, each with its records in order |
| TrainingData.TrainingDataManager.GetStats | trainingData.js:64-86 | the total is the list length, each label's count is its number of records, the counts add up to the total, and colours and shapes are listed in order of first use |
| TrainingData.CountGroups | trainingData.js:73-75 | `byLabel` has exactly the labels, each with its group's size |
| TrainingData.CollectDistinct | trainingData.js:77-83 | `Array.from(new Set(...))` gives the values in order of first occurrence |
| TrainingData.TrainingDataManager.ImportData | trainingData.js:98-110 | succeeds exactly when the text parses to an array, which then replaces the list and is saved; otherwise nothing changes |
| TrainingData.TrainingDataManager.AddBatchImages | trainingData.js:115-118 | appends all records in order and saves |
| TrainingData.TrainingDataManager.ClearAll | trainingData.js:123-126 | empties the list and saves |
| TrainingData.TrainingDataManager.SaveToStorage | trainingData.js:131-152 | writes the chunk count, then each chunk under its key; the list is unchanged |
| TrainingData.TrainingDataManager.LoadFromStorage | trainingData.js:157-177 | the list becomes what the recorded chunks parse to: empty for a count of 0 or a parse error |
| TrainingData.ParseFilename | trainingData.js:369-373 | a parsed name gives one of the six colours of the pattern and one of its six shapes |
| Text.Lower | trainingData.js:372-373 | lowercasing keeps the length and lowercases each ASCII capital, leaving other characters alone |
| Text.LowerIdempotent | trainingData.js:372-373 | lowercasing a lowercased text changes nothing |
| TrainingData.ParsedNameShape | trainingData.js:369-373 | a parsed name starts, up to case, with a known colour and `-`, then a known shape and a valid tail |
| TrainingData.ParseWellFormedName | trainingData.js:369-373 | every name of the form `color-shape[-]digits.ext`, in any case, parses to its lowercased colour and shape, `purple-blue` included |
| TrainingData.MatchColorSome | trainingData.js:369 | a colour match is a listed colour alternative followed by a shape match |
| TrainingData.BatchImages | trainingData.js:366-392 | only files whose name parses and whose contents were read give records, each with a known colour and shape and the label `color-shape` |
| TrainingData.CollectBatchImages | trainingData.js:362-400 | every file adds a record or is counted as skipped |
| TrainingData.BatchUploadImages | trainingData.js:345-411 | with no files nothing happens; otherwise the collected records are appended and saved when there are any |
| Text.ParseIntOfNatToString | trainingData.js:142 | `parseInt` reads back the decimal text of a count, whatever non-digit text follows |
| Text.ParseDecimal | trainingData.js:159 | text that starts with a digit not followed by `x` is read as its leading decimal digits |
| Text.ParseIntSkipsSpace | app.js:231 | `parseInt` skips leading white space |
| Text.ParseIntNegative | app.js:231 | a leading `-` negates the number read after it, and text without digits stays `NaN` |
| Text.TrimDrops | app.js:42 | `trim` leaves a slice of the text with only white space cut off before and after it, and the slice neither starts nor ends with white space |
| Text.TrimEmpty | app.js:42 | a name trims to the empty text exactly when it is all white space |
| App.PlayerName | app.js:42 | a player's name is never empty and is either the trimmed input or the default name |
| App.PlayerNameChoice | app.js:42 | a player's name is the trimmed input, or `Player i+1` when the input is all white space, and never empty |
| App.DefaultNamesDistinct | app.js:42 | blank boxes at different positions get different default names |
| App.StartingPlayerAt | app.js:41-48 | player `i` is named from box `i`, with score 0 and no turns |
| App.StartingTotals | app.js:43-47 | fresh players have no points and no turns in total |
| App.MakePlayers | app.js:41-48 | the `forEach` builds `StartingPlayers` |
| App.Game.constructor | app.js:2-9 | no players, index 0, no photos, no history |
| App.Game.StartGame | app.js:37-57 | with fewer than two boxes nothing changes; otherwise fresh players, index 0 and empty history, with the bookkeeping invariant |
| App.Game.ProcessPhoto | app.js:121-164 | the photo becomes current and the box shows the detected score, or 0 when detection failed |
| App.Adjusted | app.js:232 | `max(0, value + delta)` is never negative and is `value + delta` unless that is negative |
| App.ScoreBoxRoundTrip | app.js:231-233 | the number written into the score box is read back by `parseInt` |
| App.BlankBoxIsZero | app.js:231 | a blank box, or one holding only white space, counts as 0 |
| App.NegativeBox | app.js:231 | a box holding `-` and digits counts as the negated number |
| App.Game.AdjustScore | app.js:229-233 | the box holds `max(0, value + delta)` for the number it held, and that is what the next read gives |
| App.NextIndex | app.js:282 | `(i + 1) % n` stays below `n`, is `i + 1` inside the list and wraps to 0 after the last player |
| App.Game.NextTurn | app.js:280-284 | only the index changes, to the next player in circular order |
| App.RecordTurn | app.js:240-252 | recording a turn for one player and in the history keeps the score total and the turn count in step |
| App.Game.ConfirmScore | app.js:236-259 | adds the box's score to the current player only, appends one turn numbered history length + 1 and one history entry, moves the current photo to previous, passes the turn, and keeps the invariant |
| App.Game.SwapTiles | app.js:262-277 | records a 0-point swap turn and history entry, changes no score, passes the turn, and keeps the invariant |
| App.SortedByScore | app.js:303 | the listing is a permutation of the players in non-increasing score order |
| App.SortStable | app.js:346 | players with equal scores keep their order, as the stable array sort keeps them |
| App.WinnerHasTopScore | app.js:346-352 | the player listed first has the highest score |

## Left out

- `tileDetector.js` is not part of this model: it builds, trains and runs a TensorFlow.js model and keeps it in IndexedDB, all foreign library code. The model-classification branch of `detectAndScoreTiles` (imageProcessing.js:67-82) is left out with it.
- `add_models.js`, `add_models.py` and `serve.py` are not part of this model: they are interactive file-copy scripts and an HTTP server.
- `classifyColor` (imageProcessing.js:262-297) is an abstract parameter, because it computes hue and saturation in floating point.
- The grayscale conversion of `preprocessForTileDetection` (gridSplitter.js:127-132) is left out, because of its float weights and clamped rounding. The model takes the image whose first byte of each pixel is the gray level.
- `checkIfLine` and `pixelPositionsToGridCoordinates` (imageProcessing.js:340-364, scoring.js:282-329) are left out, because they work on float averages and `Math.round`. The line decision enters `EstimateScore` as a boolean.
- The `validTiles.sort` comparator (gridSplitter.js:86-90) is left out, because the 50-pixel row tolerance makes it no consistent order. The extracted tiles stay in filter order.
- Canvas and `Image` loading, `drawImage`, `getImageData`, `toDataURL`, `FileReader`, the DOM, alerts, the camera, the loading overlay and the screens are left out. They are I/O.
- `JSON.stringify` and `JSON.parse` are the `encode`/`decode` parameters of the manager. `exportData` is only `JSON.stringify` and has no member.
- `async`/`await` sequencing is left out. Every operation runs to completion in order.
- The `try`/`catch` around the storage writes (trainingData.js:148-151) is left out. The model has no storage quota, so a save always completes.
- The exception paths of `processGridImage` and `saveGridTiles` are left out, and so is their missing-file alert. They are I/O failures.
- The two `startNewTurn` definitions, `retakePhoto`, `capturePhoto` and `updateGameUI` are left out. They only change the page.
- Ids and timestamps are `Stamp` parameters, because `Date.now() + Math.random()` and `Date` are non-deterministic.
- `Text.ParseInt` is exact on unbounded integers. `parseInt` loses precision above 2^53.
- `Dominant` assumes that no colour name is an array index such as `"1"`. JavaScript enumerates such keys first, and `classifyColor` only returns colour names.
- TrainingData.TrainingDataManager.GetGroupedImages: the labels are listed in first-occurrence order. A label that is an array index such as `"7"` would be enumerated first by `Object.entries` (trainingData.js:73). Records the app builds always have a `-` in their label, but `importData` and `loadFromStorage` (trainingData.js:100-102, 171) accept records with any label, and for those the model's order can differ.
- TrainingData.SplitIntoChunks: the model counts characters, while JavaScript's `length` and `substring` (trainingData.js:138-139) count UTF-16 code units. Text with characters outside the Basic Multilingual Plane is therefore cut at other places.
- ImageProcessing.DetectTilesInDifference: assumes both photos have the same size. The source sizes the difference canvas to the previous photo (imageProcessing.js:20-33) and reads colours from the current photo with that photo's own width (imageProcessing.js:141-144, 231). It does not model photos of different sizes.
- ImageProcessing.DetectAndScoreTiles: assumes the same-size photos for the same reason.
- ImageProcessing.FindConnectedRegions: the order of the pixels inside a fill is not fixed, and it matters only for breaking ties between colours. The order of the fills, their pixel sets, bounds and centres are fixed, and `BlobsUnique` proves that.
- The board of `QwirkleBoard` is not kept as text keys `x,y`. It is kept as the pair they encode.
- GridSplitter.GridSession.constructor: the page markup decides whether the save button starts enabled, so that state is a constructor parameter.
- App.Game.StartGame: the photos are kept across games as in the source, which never resets them.
- GridSplitter.GridSession.CancelGrid: the save button is left as it was, as in the source.

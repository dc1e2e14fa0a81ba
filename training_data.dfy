/**
 * The collection of labelled tile photos used to train the classifier: the
 * list kept by `TrainingDataManager`, its persistence in `localStorage` as
 * numbered chunks of JSON text, and the filename convention of the batch
 * upload.
 */
module TrainingData {

  import opened Wrappers
  import opened Text
  import opened Sequences
  import opened Numbers

  /** Image ids are numbers drawn by the caller (`Date.now() + Math.random()`). */
  type Id = int

  datatype TrainingImage = TrainingImage(id: Id, data: string, color: string, shape: string, tileLabel: string, timestamp: string)

  /** The label of a tile type, `${color}-${shape}`. */
  function LabelOf(color: string, shape: string): string {
    color + "-" + shape
  }

  /** The id and ISO timestamp a record is created with. */
  datatype Stamp = Stamp(id: Id, timestamp: string)

  /** A record as `addImage`, `saveGridTiles` and `batchUploadImages` build it. */
  function MakeImage(stamp: Stamp, data: string, color: string, shape: string): TrainingImage {
    TrainingImage(stamp.id, data, color, shape, LabelOf(color, shape), stamp.timestamp)
  }

  // ---------------------------------------------------------------------------
  // Filters and grouping
  // ---------------------------------------------------------------------------

  /** `images.filter(img => img.id !== id)`. */
  function WithoutId(images: seq<TrainingImage>, id: Id): (r: seq<TrainingImage>)
    ensures forall img :: img in r <==> img in images && img.id != id
    ensures forall img :: multiset(r)[img] == if img.id != id then multiset(images)[img] else 0
    ensures |r| <= |images|
    ensures (forall img | img in images :: img.id != id) ==> r == images
  {
    if images == [] then []
    else
      var init := images[..|images| - 1];
      var last := images[|images| - 1];
      SplitLast([], images);
      WithoutId(init, id) + (if last.id != id then [last] else [])
  }

  /** `images.filter(img => img.label === label)`. */
  function WithLabel(images: seq<TrainingImage>, tileLabel: string): (r: seq<TrainingImage>)
    ensures forall img :: img in r <==> img in images && img.tileLabel == tileLabel
    ensures forall img :: multiset(r)[img] == if img.tileLabel == tileLabel then multiset(images)[img] else 0
    ensures |r| <= |images|
  {
    if images == [] then []
    else
      var init := images[..|images| - 1];
      var last := images[|images| - 1];
      assert images == init + [last];
      WithLabel(init, tileLabel) + (if last.tileLabel == tileLabel then [last] else [])
  }

  lemma WithLabelAppend(images: seq<TrainingImage>, x: TrainingImage, tileLabel: string)
    ensures WithLabel(images + [x], tileLabel) == WithLabel(images, tileLabel) + (if x.tileLabel == tileLabel then [x] else [])
  {
    assert (images + [x])[..|images|] == images;
  }

  lemma WithoutIdAppend(images: seq<TrainingImage>, x: TrainingImage, id: Id)
    ensures WithoutId(images + [x], id) == WithoutId(images, id) + (if x.id != id then [x] else [])
  {
    assert (images + [x])[..|images|] == images;
  }

  /**
   * Removing by id works piece by piece: the records of `a` that are kept
   * come first, in their order, then those of `b`.
   */
  lemma {:induction false} WithoutIdConcat(a: seq<TrainingImage>, b: seq<TrainingImage>, id: Id)
    ensures WithoutId(a + b, id) == WithoutId(a, id) + WithoutId(b, id)
  {
    if b == [] {
      assert a + b == a;
    } else {
      var init := b[..|b| - 1];
      var x := b[|b| - 1];
      SplitLast(a, b);
      var kept := if x.id != id then [x] else [];
      WithoutIdAppend(a + init, x, id);
      WithoutIdConcat(a, init, id);
      WithoutIdAppend(init, x, id);
      Regroup(WithoutId(a + b, id), WithoutId(a + init, id), kept, WithoutId(a, id), WithoutId(init, id), WithoutId(b, id));
    }
  }

  /**
   * Filtering by label works piece by piece: the records of `a` that carry
   * the label come first, in their order, then those of `b`.
   */
  lemma {:induction false} WithLabelConcat(a: seq<TrainingImage>, b: seq<TrainingImage>, tileLabel: string)
    ensures WithLabel(a + b, tileLabel) == WithLabel(a, tileLabel) + WithLabel(b, tileLabel)
  {
    if b == [] {
      assert a + b == a;
    } else {
      var init := b[..|b| - 1];
      var x := b[|b| - 1];
      SplitLast(a, b);
      var kept := if x.tileLabel == tileLabel then [x] else [];
      WithLabelAppend(a + init, x, tileLabel);
      WithLabelConcat(a, init, tileLabel);
      WithLabelAppend(init, x, tileLabel);
      Regroup(WithLabel(a + b, tileLabel), WithLabel(a + init, tileLabel), kept, WithLabel(a, tileLabel), WithLabel(init, tileLabel), WithLabel(b, tileLabel));
    }
  }

  function Labels(images: seq<TrainingImage>): (ls: seq<string>)
    ensures |ls| == |images| && forall k | 0 <= k < |images| :: ls[k] == images[k].tileLabel
  {
    seq(|images|, k requires 0 <= k < |images| => images[k].tileLabel)
  }

  lemma LabelsAppend(images: seq<TrainingImage>, x: TrainingImage)
    ensures Labels(images + [x]) == Labels(images) + [x.tileLabel]
  {
  }

  function ColorsOf(images: seq<TrainingImage>): (cs: seq<string>)
    ensures |cs| == |images| && forall k | 0 <= k < |images| :: cs[k] == images[k].color
  {
    seq(|images|, k requires 0 <= k < |images| => images[k].color)
  }

  function ShapesOf(images: seq<TrainingImage>): (ss: seq<string>)
    ensures |ss| == |images| && forall k | 0 <= k < |images| :: ss[k] == images[k].shape
  {
    seq(|images|, k requires 0 <= k < |images| => images[k].shape)
  }

  /** Adds `x` to the group of its label, creating the group when the label is new. */
  function AddToGroup(g: map<string, seq<TrainingImage>>, x: TrainingImage): map<string, seq<TrainingImage>> {
    g[x.tileLabel := (if x.tileLabel in g then g[x.tileLabel] else []) + [x]]
  }

  /** No record carries a label exactly when the label does not occur. */
  lemma {:induction false} WithLabelEmpty(images: seq<TrainingImage>, l: string)
    ensures WithLabel(images, l) == [] <==> l !in Labels(images)
  {
    if images != [] {
      var init := images[..|images| - 1];
      var x := images[|images| - 1];
      SplitLast([], images);
      WithLabelEmpty(init, l);
      WithLabelAppend(init, x, l);
      LabelsAppend(init, x);
    }
  }

  /** The object `getGroupedImages` builds, one record at a time. */
  function Grouped(images: seq<TrainingImage>): map<string, seq<TrainingImage>> {
    if images == [] then map[] else AddToGroup(Grouped(images[..|images| - 1]), images[|images| - 1])
  }

  /**
   * The grouping holds exactly the labels that occur, each with the records
   * carrying it in their original order.
   */
  lemma {:induction false} GroupedIsByLabel(images: seq<TrainingImage>, l: string)
    ensures l in Grouped(images) <==> l in Labels(images)
    ensures l in Grouped(images) ==> Grouped(images)[l] == WithLabel(images, l)
  {
    if images != [] {
      var init := images[..|images| - 1];
      var x := images[|images| - 1];
      SplitLast([], images);
      GroupedIsByLabel(init, l);
      WithLabelAppend(init, x, l);
      LabelsAppend(init, x);
      WithLabelEmpty(init, l);
    }
  }

  /** One step of the grouping loop over `images[k]`. */
  lemma GroupStep(images: seq<TrainingImage>, k: nat)
    requires k < |images|
    ensures Grouped(images[..k + 1]) == AddToGroup(Grouped(images[..k]), images[k])
    ensures FirstOccurrences(Labels(images[..k + 1])) ==
            if images[k].tileLabel in FirstOccurrences(Labels(images[..k])) then FirstOccurrences(Labels(images[..k]))
            else FirstOccurrences(Labels(images[..k])) + [images[k].tileLabel]
  {
    var x := images[k];
    assert images[..k + 1][..k] == images[..k];
    assert Labels(images[..k + 1]) == Labels(images[..k]) + [x.tileLabel];
    FirstOccurrencesAppend(Labels(images[..k]), x.tileLabel);
  }

  /** The sum of the counts of the given labels. */
  function SumCounts(counts: map<string, nat>, labels: seq<string>): nat
    requires forall l | l in labels :: l in counts
  {
    if labels == [] then 0 else SumCounts(counts, labels[..|labels| - 1]) + counts[labels[|labels| - 1]]
  }

  /** The sum over `labels` of how many images carry each. */
  ghost function SumLabelCounts(images: seq<TrainingImage>, labels: seq<string>): nat {
    if labels == [] then 0 else SumLabelCounts(images, labels[..|labels| - 1]) + |WithLabel(images, labels[|labels| - 1])|
  }

  lemma {:induction false} SumLabelCountsEmpty(labels: seq<string>)
    ensures SumLabelCounts([], labels) == 0
  {
    if labels != [] {
      SumLabelCountsEmpty(labels[..|labels| - 1]);
    }
  }

  /** One more image adds one to the sum for each occurrence of its label. */
  lemma {:induction false} SumLabelCountsAppend(images: seq<TrainingImage>, x: TrainingImage, labels: seq<string>)
    ensures SumLabelCounts(images + [x], labels) == SumLabelCounts(images, labels) + multiset(labels)[x.tileLabel]
  {
    if labels != [] {
      var init := labels[..|labels| - 1];
      var last := labels[|labels| - 1];
      assert labels == init + [last];
      SumLabelCountsAppend(images, x, init);
      WithLabelAppend(images, x, last);
    }
  }

  lemma {:induction false} DistinctOnce<T>(s: seq<T>, x: T)
    requires Distinct(s) && x in s
    ensures multiset(s)[x] == 1
  {
    var init := s[..|s| - 1];
    var last := s[|s| - 1];
    assert s == init + [last];
    if last == x {
      assert x !in init;
    } else {
      DistinctOnce(init, x);
    }
  }

  /**
   * Over any list of distinct labels that contains every image's label, the
   * per-label counts add up to the number of images.
   */
  lemma {:induction false} SumLabelCountsTotal(images: seq<TrainingImage>, labels: seq<string>)
    requires Distinct(labels)
    requires forall img | img in images :: img.tileLabel in labels
    ensures SumLabelCounts(images, labels) == |images|
  {
    if images == [] {
      SumLabelCountsEmpty(labels);
    } else {
      var init := images[..|images| - 1];
      var last := images[|images| - 1];
      assert images == init + [last];
      SumLabelCountsTotal(init, labels);
      SumLabelCountsAppend(init, last, labels);
      DistinctOnce(labels, last.tileLabel);
    }
  }

  /** The counts of a label list agree with the images when each count is that label's number of images. */
  lemma {:induction false} SumCountsAgree(counts: map<string, nat>, images: seq<TrainingImage>, labels: seq<string>)
    requires forall l | l in labels :: l in counts && counts[l] == |WithLabel(images, l)|
    ensures SumCounts(counts, labels) == SumLabelCounts(images, labels)
  {
    if labels != [] {
      SumCountsAgree(counts, images, labels[..|labels| - 1]);
    }
  }

  /** The per-label counts of `getStats` add up to the number of records. */
  lemma LabelCountsTotal(images: seq<TrainingImage>, counts: map<string, nat>)
    requires forall l | l in FirstOccurrences(Labels(images)) :: l in counts && counts[l] == |WithLabel(images, l)|
    ensures SumCounts(counts, FirstOccurrences(Labels(images))) == |images|
  {
    var labels := FirstOccurrences(Labels(images));
    forall img | img in images ensures img.tileLabel in labels {
      var k :| 0 <= k < |images| && images[k] == img;
      assert Labels(images)[k] == img.tileLabel;
    }
    SumLabelCountsTotal(images, labels);
    SumCountsAgree(counts, images, labels);
  }

  /** What `getStats` reports: the total, the count per label in key order, and the colours and shapes seen. */
  datatype Stats = Stats(total: nat, labels: seq<string>, byLabel: map<string, nat>, colors: seq<string>, shapes: seq<string>)

  // ---------------------------------------------------------------------------
  // Chunked storage (`saveToStorage`, `loadFromStorage`)
  // ---------------------------------------------------------------------------

  const ChunkSize: nat := 500000
  const ChunkCountKey := "qwirkle_training_chunks"
  const ChunkKeyPrefix := "qwirkle_training_"

  /** The key of chunk `i`, `qwirkle_training_${i}`. */
  function ChunkKey(i: nat): string {
    ChunkKeyPrefix + NatToString(i)
  }

  /** Distinct chunks have distinct keys, none of which is the key of the count. */
  lemma ChunkKeys(i: nat, j: nat)
    ensures ChunkKey(i) == ChunkKey(j) <==> i == j
    ensures ChunkKey(i) != ChunkCountKey
  {
    var p := ChunkKeyPrefix;
    if ChunkKey(i) == ChunkKey(j) {
      assert NatToString(i) == ChunkKey(i)[|p|..] && NatToString(j) == ChunkKey(j)[|p|..];
      NatToStringInjective(i, j);
    }
    assert ChunkKey(i)[|p|] == NatToString(i)[0];
    assert ChunkCountKey[|p|] == 'c';
  }

  /** The browser's `localStorage`: text values under text keys. */
  type Storage = map<string, string>

  /** `localStorage.getItem(key) || dflt`: a missing or empty value reads as the default. */
  function GetOr(st: Storage, key: string, dflt: string): string {
    if key in st && st[key] != "" then st[key] else dflt
  }

  /** `json.substring(i, i + chunkSize)` for `i = 0, chunkSize, 2 * chunkSize, ...` while `i < json.length`. */
  function Chunks(json: string): seq<string>
    decreases |json|
  {
    if json == [] then []
    else if |json| <= ChunkSize then [json]
    else [json[..ChunkSize]] + Chunks(json[ChunkSize..])
  }

  /** The chunks joined in order. */
  function Concat(chunks: seq<string>): string {
    if chunks == [] then "" else Concat(chunks[..|chunks| - 1]) + chunks[|chunks| - 1]
  }

  lemma {:induction false} ConcatCons(c: string, rest: seq<string>)
    ensures Concat([c] + rest) == c + Concat(rest)
  {
    if rest != [] {
      var init := rest[..|rest| - 1];
      assert ([c] + rest)[..|rest|] == [c] + init;
      ConcatCons(c, init);
    } else {
      assert ([c] + rest)[..0] == [];
    }
  }

  /**
   * Splitting gives `ceil(length / 500000)` non-empty chunks of at most
   * 500000 characters, all full but the last, which join back to the text.
   */
  lemma {:induction false} ChunksProperties(json: string)
    ensures |Chunks(json)| == (|json| + ChunkSize - 1) / ChunkSize
    ensures forall k | 0 <= k < |Chunks(json)| :: 0 < |Chunks(json)[k]| <= ChunkSize
    ensures forall k | 0 <= k < |Chunks(json)| - 1 :: |Chunks(json)[k]| == ChunkSize
    ensures Concat(Chunks(json)) == json
    decreases |json|
  {
    if |json| > ChunkSize {
      var head := json[..ChunkSize];
      var tail := json[ChunkSize..];
      ChunksProperties(tail);
      var cs := Chunks(json);
      assert cs == [head] + Chunks(tail);
      ConcatCons(head, Chunks(tail));
      assert head + tail == json;
      assert (|json| + ChunkSize - 1) / ChunkSize == (|tail| + ChunkSize - 1) / ChunkSize + 1 by {
        assert |json| + ChunkSize - 1 == (|tail| + ChunkSize - 1) + ChunkSize;
      }
      forall k | 0 <= k < |cs| ensures 0 < |cs[k]| <= ChunkSize {
        if k > 0 { assert cs[k] == Chunks(tail)[k - 1]; }
      }
      forall k | 0 <= k < |cs| - 1 ensures |cs[k]| == ChunkSize {
        if k > 0 { assert cs[k] == Chunks(tail)[k - 1]; }
      }
    } else if json != [] {
      assert Concat([json]) == Concat([]) + json;
    }
  }

  /** The storage after `setItem(qwirkle_training_${i}, chunks[i])` for each chunk in turn. */
  function WriteChunks(st: Storage, chunks: seq<string>): Storage {
    if chunks == [] then st
    else WriteChunks(st, chunks[..|chunks| - 1])[ChunkKey(|chunks| - 1) := chunks[|chunks| - 1]]
  }

  /** After the writes, chunk `i` is stored under its key and every other key is as before. */
  lemma {:induction false} WriteChunksContents(st: Storage, chunks: seq<string>)
    ensures forall i | 0 <= i < |chunks| :: ChunkKey(i) in WriteChunks(st, chunks) && WriteChunks(st, chunks)[ChunkKey(i)] == chunks[i]
    ensures forall key | key in st && (forall i | 0 <= i < |chunks| :: key != ChunkKey(i)) :: key in WriteChunks(st, chunks) && WriteChunks(st, chunks)[key] == st[key]
    ensures ChunkCountKey in st ==> ChunkCountKey in WriteChunks(st, chunks) && WriteChunks(st, chunks)[ChunkCountKey] == st[ChunkCountKey]
  {
    if chunks != [] {
      var init := chunks[..|chunks| - 1];
      WriteChunksContents(st, init);
      forall i | 0 <= i < |init| ensures ChunkKey(i) != ChunkKey(|init|) {
        ChunkKeys(i, |init|);
      }
      ChunkKeys(|init|, |init|);
    }
  }

  /** What `saveToStorage` leaves in storage for the JSON text: the chunk count, then each chunk. */
  function Saved(st: Storage, json: string): Storage {
    WriteChunks(st[ChunkCountKey := NatToString(|Chunks(json)|)], Chunks(json))
  }

  /** The text `loadFromStorage` joins from the first `n` chunk keys; a missing chunk reads as empty. */
  function JoinStored(st: Storage, n: nat): string {
    if n == 0 then "" else JoinStored(st, n - 1) + GetOr(st, ChunkKey(n - 1), "")
  }

  /** The list `loadFromStorage` ends with; `decode` is `JSON.parse`, `None` when it throws. */
  function LoadImages(st: Storage, decode: string -> Option<seq<TrainingImage>>): seq<TrainingImage> {
    var numChunks := ParseInt(GetOr(st, ChunkCountKey, "0"));
    if numChunks == Some(0) then []
    else
      var jsonData := if numChunks.Some? && numChunks.value > 0 then JoinStored(st, numChunks.value) else "";
      match decode(jsonData)
      case Some(images) => images
      case None => []
  }

  /** With no recorded count, loading gives the empty list. */
  lemma NoCountLoadsEmpty(st: Storage, decode: string -> Option<seq<TrainingImage>>)
    requires ChunkCountKey !in st
    ensures LoadImages(st, decode) == []
  {
    assert GetOr(st, ChunkCountKey, "0") == NatToString(0) + [];
    ParseIntOfNatToString(0, []);
  }

  /** Joining the first `n` chunk keys reads back the first `n` chunks, whatever else is stored. */
  lemma {:induction false} JoinWritten(st: Storage, chunks: seq<string>, n: nat)
    requires n <= |chunks|
    requires forall i | 0 <= i < |chunks| :: ChunkKey(i) in st && st[ChunkKey(i)] == chunks[i]
    ensures JoinStored(st, n) == Concat(chunks[..n])
  {
    if n > 0 {
      JoinWritten(st, chunks, n - 1);
      assert chunks[..n][..n - 1] == chunks[..n - 1];
    }
  }

  /**
   * Saving and then loading is the identity on the JSON text: the count
   * reads back as the number of chunks, and those chunks join to the text,
   * whatever stale chunks the storage held before.
   */
  lemma SaveLoadRoundTrip(st: Storage, json: string)
    ensures ParseInt(GetOr(Saved(st, json), ChunkCountKey, "0")) == Some(|Chunks(json)|)
    ensures JoinStored(Saved(st, json), |Chunks(json)|) == json
  {
    var chunks := Chunks(json);
    var st1 := st[ChunkCountKey := NatToString(|chunks|)];
    WriteChunksContents(st1, chunks);
    assert GetOr(Saved(st, json), ChunkCountKey, "0") == NatToString(|chunks|) + [];
    ParseIntOfNatToString(|chunks|, []);
    JoinWritten(Saved(st, json), chunks, |chunks|);
    assert chunks[..|chunks|] == chunks;
    ChunksProperties(json);
  }

  /** A list whose JSON text `JSON.parse` reads back is loaded back as it was saved. */
  lemma ImagesRoundTrip(st: Storage, images: seq<TrainingImage>,
                        encode: seq<TrainingImage> -> string, decode: string -> Option<seq<TrainingImage>>)
    requires encode(images) != "" && decode(encode(images)) == Some(images)
    ensures LoadImages(Saved(st, encode(images)), decode) == images
  {
    var json := encode(images);
    SaveLoadRoundTrip(st, json);
    ChunksProperties(json);
    assert |Chunks(json)| > 0 by {
      assert (|json| + ChunkSize - 1) / ChunkSize >= 1;
    }
  }

  /**
   * The loop of `saveToStorage`: `substring(i, i + chunkSize)` for `i`
   * stepping by the chunk size.
   */
  method SplitIntoChunks(jsonData: string) returns (chunks: seq<string>)
    ensures chunks == Chunks(jsonData)
  {
    chunks := [];
    var i := 0;
    while i < |jsonData|
      invariant 0 <= i
      invariant chunks + Chunks(jsonData[Min(i, |jsonData|)..]) == Chunks(jsonData)
      decreases |jsonData| - i
    {
      var rest := jsonData[i..];
      var end := Min(i + ChunkSize, |jsonData|);
      if |rest| > ChunkSize {
        assert rest[..ChunkSize] == jsonData[i..end];
        assert rest[ChunkSize..] == jsonData[i + ChunkSize..];
      } else {
        assert rest == jsonData[i..end];
      }
      chunks := chunks + [jsonData[i..end]];
      i := i + ChunkSize;
    }
    assert jsonData[|jsonData|..] == [];
  }

  /** The loop of `loadFromStorage` that appends chunks `0 .. numChunks - 1`. */
  method JoinChunks(st: Storage, numChunks: nat) returns (jsonData: string)
    ensures jsonData == JoinStored(st, numChunks)
  {
    jsonData := "";
    for i := 0 to numChunks
      invariant jsonData == JoinStored(st, i)
    {
      jsonData := jsonData + GetOr(st, ChunkKey(i), "");
    }
  }

  /** What `JSON.parse` makes of imported text: an array of records, some other value, or an error. */
  datatype Parsed = ArrayValue(images: seq<TrainingImage>) | OtherValue | ParseError

  // ---------------------------------------------------------------------------
  // The manager
  // ---------------------------------------------------------------------------

  /**
   * `TrainingDataManager`: the list of training images and a view of the
   * storage it saves to after every change. `encode` and `decode` stand for
   * `JSON.stringify` and `JSON.parse`.
   */
  class TrainingDataManager {
    var trainingImages: seq<TrainingImage>
    var storage: Storage
    const encode: seq<TrainingImage> -> string
    const decode: string -> Option<seq<TrainingImage>>

    /** The manager starts with what the storage holds. */
    constructor (st: Storage, encode: seq<TrainingImage> -> string, decode: string -> Option<seq<TrainingImage>>)
      ensures this.encode == encode && this.decode == decode
      ensures storage == st && trainingImages == LoadImages(st, decode)
    {
      this.encode := encode;
      this.decode := decode;
      storage := st;
      trainingImages := [];
      new;
      LoadFromStorage();
    }

    /** `addImage`: appends one record labelled `color-shape` and saves. */
    method AddImage(stamp: Stamp, imageData: string, color: string, shape: string) returns (image: TrainingImage)
      modifies this
      ensures image == MakeImage(stamp, imageData, color, shape) && image.tileLabel == color + "-" + shape
      ensures trainingImages == old(trainingImages) + [image]
      ensures storage == Saved(old(storage), encode(trainingImages))
    {
      image := MakeImage(stamp, imageData, color, shape);
      trainingImages := trainingImages + [image];
      SaveToStorage();
    }

    /** `removeImage`: drops every record with the id and saves. */
    method RemoveImage(imageId: Id)
      modifies this
      ensures trainingImages == WithoutId(old(trainingImages), imageId)
      ensures storage == Saved(old(storage), encode(trainingImages))
    {
      trainingImages := WithoutId(trainingImages, imageId);
      SaveToStorage();
    }

    /** `getImagesByLabel`: the records labelled `color-shape`, in order. */
    function GetImagesByLabel(color: string, shape: string): (r: seq<TrainingImage>)
      reads this
      ensures forall img :: img in r <==> img in trainingImages && img.tileLabel == color + "-" + shape
      ensures forall img :: multiset(r)[img] == if img.tileLabel == color + "-" + shape then multiset(trainingImages)[img] else 0
      ensures r == WithLabel(trainingImages, LabelOf(color, shape))
    {
      WithLabel(trainingImages, LabelOf(color, shape))
    }

    /**
     * `getGroupedImages`: the labels in order of first occurrence, and for
     * each the records carrying it, in order.
     */
    method GetGroupedImages() returns (labels: seq<string>, grouped: map<string, seq<TrainingImage>>)
      ensures labels == FirstOccurrences(Labels(trainingImages))
      ensures grouped == Grouped(trainingImages)
      ensures forall l :: l in grouped <==> l in labels
      ensures forall l | l in grouped :: grouped[l] == WithLabel(trainingImages, l)
    {
      labels := [];
      grouped := map[];
      var images := trainingImages;
      for k := 0 to |images|
        invariant labels == FirstOccurrences(Labels(images[..k]))
        invariant grouped == Grouped(images[..k])
      {
        var img := images[k];
        GroupStep(images, k);
        GroupedIsByLabel(images[..k], img.tileLabel);
        if img.tileLabel !in grouped {
          grouped := grouped[img.tileLabel := []];
          labels := labels + [img.tileLabel];
        }
        grouped := grouped[img.tileLabel := grouped[img.tileLabel] + [img]];
      }
      assert images[..|images|] == images;
      forall l ensures (l in grouped <==> l in Labels(images)) && (l in grouped ==> grouped[l] == WithLabel(images, l)) {
        GroupedIsByLabel(images, l);
      }
    }

    /**
     * `getStats`: the number of records, the count of each label (which add
     * up to that number), and the colours and shapes in order of first use.
     */
    method GetStats() returns (stats: Stats)
      ensures stats.total == |trainingImages|
      ensures stats.labels == FirstOccurrences(Labels(trainingImages))
      ensures forall l :: l in stats.byLabel <==> l in stats.labels
      ensures forall l | l in stats.byLabel :: stats.byLabel[l] == |WithLabel(trainingImages, l)|
      ensures SumCounts(stats.byLabel, stats.labels) == stats.total
      ensures stats.colors == FirstOccurrences(ColorsOf(trainingImages))
      ensures stats.shapes == FirstOccurrences(ShapesOf(trainingImages))
    {
      var labels, grouped := GetGroupedImages();
      var byLabel := CountGroups(labels, grouped);
      var colors := CollectDistinct(ColorsOf(trainingImages));
      var shapes := CollectDistinct(ShapesOf(trainingImages));
      stats := Stats(|trainingImages|, labels, byLabel, colors, shapes);
      LabelCountsTotal(trainingImages, byLabel);
    }

    /** `importData`: an array replaces the list and is saved; anything else leaves everything as it was. */
    method ImportData(jsonData: string, parse: string -> Parsed) returns (success: bool)
      modifies this
      ensures success <==> parse(jsonData).ArrayValue?
      ensures success ==> trainingImages == parse(jsonData).images && storage == Saved(old(storage), encode(trainingImages))
      ensures !success ==> trainingImages == old(trainingImages) && storage == old(storage)
    {
      var imported := parse(jsonData);
      if imported.ArrayValue? {
        trainingImages := imported.images;
        SaveToStorage();
        return true;
      }
      return false;
    }

    /** `addBatchImages`: appends all records in order and saves. */
    method AddBatchImages(imagesArray: seq<TrainingImage>)
      modifies this
      ensures trainingImages == old(trainingImages) + imagesArray
      ensures storage == Saved(old(storage), encode(trainingImages))
    {
      trainingImages := trainingImages + imagesArray;
      SaveToStorage();
    }

    /** `clearAll`: empties the list and saves. */
    method ClearAll()
      modifies this
      ensures trainingImages == []
      ensures storage == Saved(old(storage), encode([]))
    {
      trainingImages := [];
      SaveToStorage();
    }

    /** `saveToStorage`: writes the chunk count, then every chunk of the list's JSON text. */
    method SaveToStorage()
      modifies this
      ensures trainingImages == old(trainingImages)
      ensures storage == Saved(old(storage), encode(trainingImages))
    {
      var jsonData := encode(trainingImages);
      var chunks := SplitIntoChunks(jsonData);
      storage := storage[ChunkCountKey := NatToString(|chunks|)];
      ghost var st1 := storage;
      for index := 0 to |chunks|
        invariant trainingImages == old(trainingImages)
        invariant storage == WriteChunks(st1, chunks[..index])
      {
        assert chunks[..index + 1][..index] == chunks[..index];
        storage := storage[ChunkKey(index) := chunks[index]];
      }
      assert chunks[..|chunks|] == chunks;
    }

    /** `loadFromStorage`: reads the recorded number of chunks, joins them and parses the text. */
    method LoadFromStorage()
      modifies this
      ensures storage == old(storage)
      ensures trainingImages == LoadImages(storage, decode)
    {
      var numChunks := ParseInt(GetOr(storage, ChunkCountKey, "0"));
      if numChunks == Some(0) {
        trainingImages := [];
        return;
      }
      var jsonData := "";
      if numChunks.Some? && numChunks.value > 0 {
        jsonData := JoinChunks(storage, numChunks.value);
      }
      match decode(jsonData)
      case Some(images) => trainingImages := images;
      case None => trainingImages := [];
    }
  }

  /** The `byLabel` object of `getStats`: the size of each label's group. */
  method CountGroups(labels: seq<string>, grouped: map<string, seq<TrainingImage>>) returns (byLabel: map<string, nat>)
    requires forall l | l in labels :: l in grouped
    ensures forall l :: l in byLabel <==> l in labels
    ensures forall l | l in byLabel :: byLabel[l] == |grouped[l]|
  {
    byLabel := map[];
    for i := 0 to |labels|
      invariant forall l :: l in byLabel <==> l in labels[..i]
      invariant forall l | l in byLabel :: l in grouped && byLabel[l] == |grouped[l]|
    {
      assert labels[..i + 1] == labels[..i] + [labels[i]];
      byLabel := byLabel[labels[i] := |grouped[labels[i]]|];
    }
    assert labels[..|labels|] == labels;
  }

  /** `Array.from(new Set(values))` built by adding the values in turn. */
  method CollectDistinct(values: seq<string>) returns (distinct: seq<string>)
    ensures distinct == FirstOccurrences(values)
  {
    distinct := [];
    for k := 0 to |values|
      invariant distinct == FirstOccurrences(values[..k])
    {
      assert values[..k + 1][..k] == values[..k];
      if values[k] !in distinct {
        distinct := distinct + [values[k]];
      }
    }
    assert values[..|values|] == values;
  }

  // ---------------------------------------------------------------------------
  // Filenames of the batch upload
  // ---------------------------------------------------------------------------

  /** The colour alternatives of the filename pattern, in the order the pattern tries them. */
  const FileColors: seq<string> := ["silver", "purple", "orange", "blue", "pink", "purple-blue"]
  const FileShapes: seq<string> := ["circle", "square", "diamond", "star", "clover", "cross"]
  const FileExtensions: seq<string> := [".jpg", ".jpeg", ".png"]

  /** What follows the shape: an optional `-`, decimal digits, then `.jpg`, `.jpeg` or `.png` at the end. */
  predicate TailMatches(t: string) {
    DropDigits(if t != [] && t[0] == '-' then t[1..] else t) in FileExtensions
  }

  /** What is left after the leading decimal digits, which `\d*` consumes. */
  function DropDigits(t: string): string {
    if t != [] && IsDigit(t[0]) then DropDigits(t[1..]) else t
  }

  lemma {:induction false} DropDigitsOf(digits: string, rest: string)
    requires AllDigits(digits) && (rest == [] || !IsDigit(rest[0]))
    ensures DropDigits(digits + rest) == rest
  {
    if digits != [] {
      assert (digits + rest)[1..] == digits[1..] + rest;
      DropDigitsOf(digits[1..], rest);
    }
  }

  /** The shape alternative matches at the start of the text and a valid tail follows it. */
  predicate ShapeAt(t: string, shape: string) {
    shape <= t && TailMatches(t[|shape|..])
  }

  /** The shape group: the alternatives tried in the pattern's order. */
  function MatchShape(t: string): Option<string> {
    if ShapeAt(t, "circle") then Some("circle")
    else if ShapeAt(t, "square") then Some("square")
    else if ShapeAt(t, "diamond") then Some("diamond")
    else if ShapeAt(t, "star") then Some("star")
    else if ShapeAt(t, "clover") then Some("clover")
    else if ShapeAt(t, "cross") then Some("cross")
    else None
  }

  /** The colour alternative and `-` match at the start of the text, and the rest of the pattern matches after them. */
  predicate ColorAt(t: string, color: string) {
    color + "-" <= t && MatchShape(t[|color| + 1..]).Some?
  }

  function ColorMatch(t: string, color: string): (string, string)
    requires ColorAt(t, color)
  {
    (color, MatchShape(t[|color| + 1..]).value)
  }

  /** The colour group: the alternatives tried in the pattern's order, so `purple` is tried before `purple-blue`. */
  function MatchColor(t: string): Option<(string, string)> {
    if ColorAt(t, "silver") then Some(ColorMatch(t, "silver"))
    else if ColorAt(t, "purple") then Some(ColorMatch(t, "purple"))
    else if ColorAt(t, "orange") then Some(ColorMatch(t, "orange"))
    else if ColorAt(t, "blue") then Some(ColorMatch(t, "blue"))
    else if ColorAt(t, "pink") then Some(ColorMatch(t, "pink"))
    else if ColorAt(t, "purple-blue") then Some(ColorMatch(t, "purple-blue"))
    else None
  }

  /** A shape group match is a shape alternative that matches. */
  lemma MatchShapeSome(t: string)
    ensures MatchShape(t).Some? ==> MatchShape(t).value in FileShapes && ShapeAt(t, MatchShape(t).value)
  {
  }

  /** The shape group fails only when no shape alternative matches. */
  lemma MatchShapeNone(t: string)
    ensures MatchShape(t).None? ==> forall shape | shape in FileShapes :: !ShapeAt(t, shape)
  {
  }

  /** A colour group match is a colour alternative that matches. */
  lemma MatchColorSome(t: string)
    ensures MatchColor(t).Some? ==> && MatchColor(t).value.0 in FileColors && ColorAt(t, MatchColor(t).value.0)
                                    && MatchShape(t[|MatchColor(t).value.0| + 1..]) == Some(MatchColor(t).value.1)
  {
    if MatchColor(t).Some? {
      var c := MatchColor(t).value.0;
      assert c == "silver" || c == "purple" || c == "orange" || c == "blue" || c == "pink" || c == "purple-blue";
      assert ColorAt(t, c);
    }
  }

  /** The colour group fails only when no colour alternative matches. */
  lemma MatchColorNone(t: string)
    ensures MatchColor(t).None? ==> forall color | color in FileColors :: !ColorAt(t, color)
  {
  }

  /**
   * The case-insensitive match of
   * `^(silver|purple|orange|blue|pink|purple-blue)-(circle|...|cross)-?\d*\.(jpg|jpeg|png)$`
   * with its two groups lowercased: the colour and the shape.
   */
  function ParseFilename(name: string): (r: Option<(string, string)>)
    ensures r.Some? ==> r.value.0 in FileColors && r.value.1 in FileShapes
  {
    var t := Lower(name);
    MatchColorSome(t);
    if MatchColor(t).Some? then
      MatchShapeSome(t[|MatchColor(t).value.0| + 1..]);
      MatchColor(t)
    else
      MatchColor(t)
  }

  /**
   * A parsed name starts, up to case, with a known colour and `-`, and after
   * them comes a known shape followed by a valid tail.
   */
  lemma ParsedNameShape(name: string)
    ensures ParseFilename(name).Some? ==>
              var c, s := ParseFilename(name).value.0, ParseFilename(name).value.1;
              && c in FileColors && s in FileShapes
              && c + "-" <= Lower(name) && ShapeAt(Lower(name)[|c| + 1..], s)
  {
    var t := Lower(name);
    MatchColorSome(t);
    if MatchColor(t).Some? {
      MatchShapeSome(t[|MatchColor(t).value.0| + 1..]);
    }
  }

  /** Text that differs from `p` at position `i` does not start with `p`. */
  lemma Differs(p: string, t: string, i: nat)
    requires i < |p| && i < |t| && p[i] != t[i]
    ensures !(p <= t)
  {
  }

  /**
   * A name that reads, ignoring case, `color-shape[-]digits.ext` parses to
   * that colour and shape.
   */
  lemma ParseWellFormedName(name: string, c: string, s: string, dash: bool, digits: string, ext: string)
    requires c in FileColors && s in FileShapes && ext in FileExtensions && AllDigits(digits)
    requires Lower(name) == c + "-" + s + NameTail(dash, digits, ext)
    ensures ParseFilename(name) == Some((c, s))
  {
    TailOfName(dash, digits, ext);
    ColorOfName(c, s, NameTail(dash, digits, ext));
  }

  /** The part of a name after the shape: an optional `-`, digits and an extension. */
  function NameTail(dash: bool, digits: string, ext: string): string {
    (if dash then "-" else "") + digits + ext
  }

  lemma TailOfName(dash: bool, digits: string, ext: string)
    requires ext in FileExtensions && AllDigits(digits)
    ensures TailMatches(NameTail(dash, digits, ext))
  {
    var t := NameTail(dash, digits, ext);
    assert (if t != [] && t[0] == '-' then t[1..] else t) == digits + ext;
    DropDigitsOf(digits, ext);
  }

  /** No two shapes agree on both of their first two letters. */
  lemma ShapesApart(s: string, s2: string)
    requires s in FileShapes && s2 in FileShapes && s != s2
    ensures s[0] != s2[0] || s[1] != s2[1]
  {
  }

  lemma ShapeOfName(s: string, tail: string)
    requires s in FileShapes && TailMatches(tail)
    ensures MatchShape(s + tail) == Some(s)
  {
    var t := s + tail;
    assert t[..|s|] == s && t[|s|..] == tail;
    assert ShapeAt(t, s);
    forall s2 | s2 in FileShapes && s2 != s ensures !ShapeAt(t, s2) {
      ShapesApart(s, s2);
      Differs(s2, t, if s[0] != s2[0] then 0 else 1);
    }
    assert "circle" in FileShapes && "square" in FileShapes && "diamond" in FileShapes;
    assert "star" in FileShapes && "clover" in FileShapes;
    ShapeFirst(t, s);
  }

  /** The shape alternative that matches, after the ones before it fail, gives the match. */
  lemma ShapeFirst(t: string, s: string)
    requires s in FileShapes && ShapeAt(t, s)
    requires s != "circle" ==> !ShapeAt(t, "circle")
    requires s != "circle" && s != "square" ==> !ShapeAt(t, "square")
    requires s == "star" || s == "clover" || s == "cross" ==> !ShapeAt(t, "diamond")
    requires s == "clover" || s == "cross" ==> !ShapeAt(t, "star")
    requires s == "cross" ==> !ShapeAt(t, "clover")
    ensures MatchShape(t) == Some(s)
  {
    if s == "circle" {
      assert MatchShape(t) == Some("circle");
    } else if s == "square" {
      assert MatchShape(t) == Some("square");
    } else if s == "diamond" {
      assert MatchShape(t) == Some("diamond");
    } else if s == "star" {
      assert MatchShape(t) == Some("star");
    } else if s == "clover" {
      assert MatchShape(t) == Some("clover");
    } else {
      assert MatchShape(t) == Some("cross");
    }
  }

  /** No shape starts with `b`: after `purple-`, a `blue-...` rest matches no shape. */
  lemma NoShapeAtBlue(u: string)
    requires u != [] && u[0] == 'b'
    ensures MatchShape(u).None?
  {
    forall s | s in FileShapes ensures !ShapeAt(u, s) {
      Differs(s, u, 0);
    }
  }

  /** Text that differs from `color-` at position `i` does not match that colour alternative. */
  lemma NotColorAt(t: string, color: string, i: nat)
    requires i <= |color| && i < |t| && (color + "-")[i] != t[i]
    ensures !ColorAt(t, color)
  {
    Differs(color + "-", t, i);
  }

  /** The colour alternative that matches, after the ones before it fail, gives the match. */
  lemma MatchAt(t: string, c: string, s: string)
    requires c in FileColors && ColorAt(t, c) && MatchShape(t[|c| + 1..]) == Some(s)
    requires c != "silver" ==> !ColorAt(t, "silver")
    requires c != "silver" && c != "purple" ==> !ColorAt(t, "purple")
    requires c == "blue" || c == "pink" || c == "purple-blue" ==> !ColorAt(t, "orange")
    requires c == "pink" || c == "purple-blue" ==> !ColorAt(t, "blue")
    requires c == "purple-blue" ==> !ColorAt(t, "pink")
    ensures MatchColor(t) == Some((c, s))
  {
    if c == "silver" {
      assert MatchColor(t) == Some(ColorMatch(t, "silver"));
    } else if c == "purple" {
      assert MatchColor(t) == Some(ColorMatch(t, "purple"));
    } else if c == "orange" {
      assert MatchColor(t) == Some(ColorMatch(t, "orange"));
    } else if c == "blue" {
      assert MatchColor(t) == Some(ColorMatch(t, "blue"));
    } else if c == "pink" {
      assert MatchColor(t) == Some(ColorMatch(t, "pink"));
    } else {
      assert MatchColor(t) == Some(ColorMatch(t, "purple-blue"));
    }
  }

  lemma ColorOfName(c: string, s: string, tail: string)
    requires c in FileColors && s in FileShapes && TailMatches(tail)
    ensures MatchColor(c + "-" + s + tail) == Some((c, s))
  {
    var head := c + "-";
    var t := head + (s + tail);
    assert t == c + "-" + s + tail;
    assert t[..|c| + 1] == head;
    assert t[|c| + 1..] == s + tail;
    ShapeOfName(s, tail);
    EarlierColorsFail(t, c);
    MatchAt(t, c, s);
  }

  /** Text that starts with a colour and `-` matches none of the colour alternatives tried before it. */
  lemma EarlierColorsFail(t: string, c: string)
    requires c in FileColors && c + "-" <= t
    ensures c != "silver" ==> !ColorAt(t, "silver")
    ensures c != "silver" && c != "purple" ==> !ColorAt(t, "purple")
    ensures c == "blue" || c == "pink" || c == "purple-blue" ==> !ColorAt(t, "orange")
    ensures c == "pink" || c == "purple-blue" ==> !ColorAt(t, "blue")
    ensures c == "purple-blue" ==> !ColorAt(t, "pink")
  {
    var head := c + "-";
    assert t[0] == head[0] && t[1] == head[1];
    if c == "purple" {
      NotColorAt(t, "silver", 0);
    } else if c == "orange" {
      NotColorAt(t, "silver", 0);
      NotColorAt(t, "purple", 0);
    } else if c == "blue" {
      NotColorAt(t, "silver", 0);
      NotColorAt(t, "purple", 0);
      NotColorAt(t, "orange", 0);
    } else if c == "pink" {
      NotColorAt(t, "silver", 0);
      NotColorAt(t, "purple", 1);
      NotColorAt(t, "orange", 0);
      NotColorAt(t, "blue", 0);
    } else if c == "purple-blue" {
      NotColorAt(t, "silver", 0);
      assert t[7] == head[7] == 'b';
      NoShapeAtBlue(t[7..]);
      NotColorAt(t, "orange", 0);
      NotColorAt(t, "blue", 0);
      NotColorAt(t, "pink", 1);
    }
  }

  /** One selected file: its name and its contents as a data URL, `None` when reading it failed. */
  datatype BatchFile = BatchFile(name: string, contents: Option<string>)

  /** The records `batchUploadImages` collects: one per file whose name parses and whose contents were read. */
  function BatchImages(files: seq<BatchFile>, stamps: seq<Stamp>): (images: seq<TrainingImage>)
    requires |stamps| == |files|
    ensures |images| <= |files|
    ensures forall img | img in images :: img.color in FileColors && img.shape in FileShapes && img.tileLabel == img.color + "-" + img.shape
  {
    if files == [] then []
    else
      var k := |files| - 1;
      var earlier := BatchImages(files[..k], stamps[..k]);
      match ParseFilename(files[k].name)
      case Some(cs) =>
        if files[k].contents.Some? then
          ParsedNameShape(files[k].name);
          earlier + [MakeImage(stamps[k], files[k].contents.value, cs.0, cs.1)]
        else earlier
      case None => earlier
  }

  /**
   * The loop of `batchUploadImages`: every file either adds a record or is
   * counted as skipped.
   */
  method CollectBatchImages(files: seq<BatchFile>, stamps: seq<Stamp>) returns (newImages: seq<TrainingImage>, skipped: nat)
    requires |stamps| == |files|
    ensures newImages == BatchImages(files, stamps)
    ensures |newImages| + skipped == |files|
  {
    newImages := [];
    skipped := 0;
    for k := 0 to |files|
      invariant newImages == BatchImages(files[..k], stamps[..k])
      invariant |newImages| + skipped == k
    {
      assert files[..k + 1][..k] == files[..k] && stamps[..k + 1][..k] == stamps[..k];
      var file := files[k];
      var m := ParseFilename(file.name);
      if m.Some? {
        var color, shape := m.value.0, m.value.1;
        if file.contents.Some? {
          newImages := newImages + [MakeImage(stamps[k], file.contents.value, color, shape)];
        } else {
          skipped := skipped + 1;
        }
      } else {
        skipped := skipped + 1;
      }
    }
    assert files[..|files|] == files && stamps[..|stamps|] == stamps;
  }

  /** `batchUploadImages`: with files selected, adds the collected records when there are any. */
  method BatchUploadImages(manager: TrainingDataManager, files: seq<BatchFile>, stamps: seq<Stamp>)
    returns (added: nat, skipped: nat)
    requires |stamps| == |files|
    modifies manager
    ensures added == |BatchImages(files, stamps)| && added + skipped == |files|
    ensures manager.trainingImages == old(manager.trainingImages) + BatchImages(files, stamps)
    ensures added == 0 ==> manager.storage == old(manager.storage)
    ensures added > 0 ==> manager.storage == Saved(old(manager.storage), manager.encode(manager.trainingImages))
  {
    if |files| == 0 {
      return 0, 0;
    }
    var newImages;
    newImages, skipped := CollectBatchImages(files, stamps);
    if |newImages| > 0 {
      manager.AddBatchImages(newImages);
    }
    added := |newImages|;
  }
}

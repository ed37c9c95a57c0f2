/**
 The image side of the FashionCLIP embedding service: turning the accepted
 kinds of image input into RGB images, cutting the preprocessed list into
 consecutive batches for the encoder and joining the encoder's rows back up,
 and ranking candidate embeddings against a query by similarity.

 Opening an image from a path or from bytes and the encoder itself are foreign
 code: they are parameters here. Similarity scores are abstract integers.
 */
module FashionClipService {
  import opened PyBuiltins

  /** The exceptions the service lets escape to its caller. */
  datatype Error =
    | UnsupportedInputType(typeName: string)  // the ValueError raised by preprocess_image
    | ImageLoadFailed(reason: string)         // PIL could not open the path or the bytes
    | ZeroBatchSize                           // range() refuses a zero step
    | NothingToConcatenate                    // np.concatenate of an empty list

  datatype Result<T> = Ok(value: T) | Err(error: Error)

  /** A PIL image, seen through its colour mode and an opaque identity of its pixel data. */
  datatype Image = Image(mode: string, pixels: nat)

  /** What PIL's `Image.open` gives back for a path or a byte string. */
  datatype Loaded = Loaded(image: Image) | LoadFailed(reason: string)

  /** The two ways the service opens an image, supplied from outside. */
  datatype Loader = Loader(openPath: string -> Loaded, openBytes: seq<bv8> -> Loaded)

  /** A value handed to `preprocess_image`: a path, raw bytes, a PIL image or anything else. */
  datatype ImageInput =
    | PathInput(path: string)
    | BytesInput(data: seq<bv8>)
    | ImageObject(image: Image)
    | OtherInput(typeName: string)

  const Rgb: string := "RGB"

  /** The default `batch_size` of `batch_process_images`. */
  const DefaultBatchSize: int := 32

  /** The default `top_k` of `find_most_similar`. */
  const DefaultTopK: int := 10

  /** `image.convert('RGB')` when the mode differs: the mode becomes RGB and the pixel data is kept. */
  function ToRgb(image: Image): (r: Image)
    ensures r.mode == Rgb
    ensures r.pixels == image.pixels
    ensures image.mode == Rgb ==> r == image
  {
    if image.mode != Rgb then image.(mode := Rgb) else image
  }

  /** An opened image converted to RGB, or the failure to open it escaping as an error. */
  function FromLoaded(loaded: Loaded): (r: Result<Image>)
    ensures r.Ok? <==> loaded.Loaded?
    ensures loaded.Loaded? ==> r.value.mode == Rgb && r.value.pixels == loaded.image.pixels
    ensures loaded.Loaded? && loaded.image.mode == Rgb ==> r == Ok(loaded.image)
    ensures loaded.LoadFailed? ==> r == Err(ImageLoadFailed(loaded.reason))
  {
    match loaded
    case Loaded(image) => Ok(ToRgb(image))
    case LoadFailed(reason) => Err(ImageLoadFailed(reason))
  }

  /** `preprocess_image`: open or take the image, then make sure it is in RGB mode. */
  function Preprocess(loader: Loader, input: ImageInput): (r: Result<Image>)
    ensures input.PathInput? ==> r == FromLoaded(loader.openPath(input.path))
    ensures input.BytesInput? ==> r == FromLoaded(loader.openBytes(input.data))
    ensures input.ImageObject? ==> r == Ok(ToRgb(input.image))
    ensures r.Ok? ==> r.value.mode == Rgb
    ensures r.Ok? && input.ImageObject? ==> r.value.pixels == input.image.pixels
    ensures input.ImageObject? && input.image.mode == Rgb ==> r == Ok(input.image)
    ensures input.OtherInput? ==> r == Err(UnsupportedInputType(input.typeName))
    ensures r.Err? <==>
      || input.OtherInput?
      || (input.PathInput? && loader.openPath(input.path).LoadFailed?)
      || (input.BytesInput? && loader.openBytes(input.data).LoadFailed?)
  {
    match input
    case PathInput(path) => FromLoaded(loader.openPath(path))
    case BytesInput(data) => FromLoaded(loader.openBytes(data))
    case ImageObject(image) => Ok(ToRgb(image))
    case OtherInput(typeName) => Err(UnsupportedInputType(typeName))
  }

  /** Preprocessing is idempotent: a preprocessed image passed in again comes back unchanged. */
  lemma PreprocessIdempotent(loader: Loader, input: ImageInput)
    requires Preprocess(loader, input).Ok?
    ensures Preprocess(loader, ImageObject(Preprocess(loader, input).value)) == Preprocess(loader, input)
  {
  }

  /** The preprocessing loop of `batch_process_images`: every input in order, the first failure escaping. */
  function PreprocessAll(loader: Loader, inputs: seq<ImageInput>): (r: Result<seq<Image>>)
    ensures r.Ok? <==> forall k :: 0 <= k < |inputs| ==> Preprocess(loader, inputs[k]).Ok?
    ensures r.Ok? ==>
      && |r.value| == |inputs|
      && forall k :: 0 <= k < |inputs| ==> Preprocess(loader, inputs[k]) == Ok(r.value[k])
  {
    if inputs == [] then Ok([])
    else
      var front := inputs[..|inputs| - 1];
      assert forall k :: 0 <= k < |front| ==> front[k] == inputs[k];
      match PreprocessAll(loader, front)
      case Err(e) => Err(e)
      case Ok(images) =>
        match Preprocess(loader, inputs[|inputs| - 1])
        case Err(e) => Err(e)
        case Ok(image) => Ok(images + [image])
  }

  /** A failure is the error of the first input that fails to preprocess. */
  lemma {:induction false} PreprocessAllFirstFailure(loader: Loader, inputs: seq<ImageInput>)
    requires PreprocessAll(loader, inputs).Err?
    ensures exists k :: && 0 <= k < |inputs|
                        && Preprocess(loader, inputs[k]) == Err(PreprocessAll(loader, inputs).error)
                        && forall j :: 0 <= j < k ==> Preprocess(loader, inputs[j]).Ok?
  {
    var front := inputs[..|inputs| - 1];
    var e := PreprocessAll(loader, inputs).error;
    assert forall k :: 0 <= k < |front| ==> front[k] == inputs[k];
    if PreprocessAll(loader, front).Err? {
      PreprocessAllFirstFailure(loader, front);
      var k :| && 0 <= k < |front| && Preprocess(loader, front[k]) == Err(e)
               && forall j :: 0 <= j < k ==> Preprocess(loader, front[j]).Ok?;
      assert Preprocess(loader, inputs[k]) == Err(e);
    } else {
      var k := |inputs| - 1;
      assert Preprocess(loader, inputs[k]) == Err(e);
    }
  }

  /** Once a prefix of the inputs fails, the whole list fails with the same error. */
  lemma {:induction false} PreprocessAllStopsAtFailure(loader: Loader, inputs: seq<ImageInput>, m: nat)
    requires m <= |inputs|
    requires PreprocessAll(loader, inputs[..m]).Err?
    ensures PreprocessAll(loader, inputs) == PreprocessAll(loader, inputs[..m])
    decreases |inputs|
  {
    if m < |inputs| {
      var front := inputs[..|inputs| - 1];
      assert front[..m] == inputs[..m];
      PreprocessAllStopsAtFailure(loader, front, m);
    } else {
      assert inputs[..m] == inputs;
    }
  }

  /** One invocation of `encode_images(batch, batch_size=...)`. */
  datatype EncoderCall = EncoderCall(batch: seq<Image>, batchSize: int)

  /** One "Processing batch i/total" log line. */
  datatype Progress = Progress(batchNumber: int, batchCount: int)

  /** What a call of `batch_process_images` returns or raises, the encoder calls it made and its progress log. */
  datatype BatchRun<Row> = BatchRun(result: Result<seq<Row>>, calls: seq<EncoderCall>, progress: seq<Progress>)

  /** The slices `images[i:i + b]` for the given start offsets. */
  function BatchesAt<T>(images: seq<T>, offsets: seq<int>, b: int): seq<seq<T>>
  {
    seq(|offsets|, k requires 0 <= k < |offsets| => Slice(images, offsets[k], offsets[k] + b))
  }

  /** The batches of `batch_process_images`: one slice per value of `range(0, len(images), b)`. */
  function Batches<T>(images: seq<T>, b: int): seq<seq<T>>
    requires b != 0
  {
    BatchesAt(images, Range(0, |images|, b), b)
  }

  function CallsFor(batches: seq<seq<Image>>): seq<EncoderCall>
  {
    seq(|batches|, k requires 0 <= k < |batches| => EncoderCall(batches[k], |batches[k]|))
  }

  function Outputs<Row>(encode: (seq<Image>, int) -> seq<Row>, calls: seq<EncoderCall>): seq<seq<Row>>
  {
    seq(|calls|, k requires 0 <= k < |calls| => encode(calls[k].batch, calls[k].batchSize))
  }

  /** The logged counters `i // b + 1` and `(n + b - 1) // b`; only positive b reaches the log,
      where Python's floor division and Dafny's agree. */
  function ProgressFor(offsets: seq<int>, n: int, b: int): seq<Progress>
    requires b != 0
  {
    seq(|offsets|, k requires 0 <= k < |offsets| => Progress(offsets[k] / b + 1, (n + b - 1) / b))
  }

  /** The batching half of `batch_process_images`, once the images are preprocessed. */
  function EncodeInBatches<Row>(encode: (seq<Image>, int) -> seq<Row>, images: seq<Image>, batchSize: int): BatchRun<Row>
  {
    if batchSize == 0 then BatchRun(Err(ZeroBatchSize), [], [])
    else
      var offsets := Range(0, |images|, batchSize);
      var calls := CallsFor(BatchesAt(images, offsets, batchSize));
      var result := if calls == [] then Err(NothingToConcatenate) else Ok(Flatten(Outputs(encode, calls)));
      BatchRun(result, calls, ProgressFor(offsets, |images|, batchSize))
  }

  /** `batch_process_images` as a function of its inputs (before the optional normalisation). */
  function BatchProcess<Row>(loader: Loader, encode: (seq<Image>, int) -> seq<Row>,
                             inputs: seq<ImageInput>, batchSize: int): BatchRun<Row>
  {
    match PreprocessAll(loader, inputs)
    case Err(e) => BatchRun(Err(e), [], [])
    case Ok(images) => EncodeInBatches(encode, images, batchSize)
  }

  /** The preprocessing loop of `batch_process_images`. */
  method PreprocessImages(loader: Loader, imageInputs: seq<ImageInput>) returns (r: Result<seq<Image>>)
    ensures r == PreprocessAll(loader, imageInputs)
  {
    var images: seq<Image> := [];
    var k := 0;
    while k < |imageInputs|
      invariant 0 <= k <= |imageInputs|
      invariant PreprocessAll(loader, imageInputs[..k]) == Ok(images)
    {
      var processed := Preprocess(loader, imageInputs[k]);
      assert imageInputs[..k + 1][..k] == imageInputs[..k];
      if processed.Err? {
        PreprocessAllStopsAtFailure(loader, imageInputs, k + 1);
        return Err(processed.error);
      }
      images := images + [processed.value];
      k := k + 1;
    }
    assert imageInputs[..k] == imageInputs;
    r := Ok(images);
  }

  /** One more offset adds one more encoder call, one more output and one more log line at the end. */
  lemma BatchStep<Row>(encode: (seq<Image>, int) -> seq<Row>, images: seq<Image>, done: seq<int>, i: int, b: int)
    requires b != 0
    ensures var batch := Slice(images, i, i + b);
      && CallsFor(BatchesAt(images, done + [i], b)) == CallsFor(BatchesAt(images, done, b)) + [EncoderCall(batch, |batch|)]
      && ProgressFor(done + [i], |images|, b) == ProgressFor(done, |images|, b) + [Progress(i / b + 1, (|images| + b - 1) / b)]
  {
    assert BatchesAt(images, done + [i], b) == BatchesAt(images, done, b) + [Slice(images, i, i + b)];
  }

  lemma OutputsSnoc<Row>(encode: (seq<Image>, int) -> seq<Row>, calls: seq<EncoderCall>, call: EncoderCall)
    ensures Outputs(encode, calls + [call]) == Outputs(encode, calls) + [encode(call.batch, call.batchSize)]
  {
  }

  /** The batching loop of `batch_process_images`: one encoder call per slice, then the concatenation. */
  method EncodeImagesInBatches<Row>(encode: (seq<Image>, int) -> seq<Row>, images: seq<Image>, batchSize: int)
    returns (r: Result<seq<Row>>, calls: seq<EncoderCall>, progress: seq<Progress>)
    ensures BatchRun(r, calls, progress) == EncodeInBatches(encode, images, batchSize)
  {
    if batchSize == 0 {
      return Err(ZeroBatchSize), [], [];
    }
    var n := |images|;
    var allEmbeddings: seq<seq<Row>> := [];
    calls, progress := [], [];
    var i := 0;
    ghost var done: seq<int> := [];
    while (batchSize > 0 && i < n) || (batchSize < 0 && i > n)
      invariant batchSize < 0 ==> i == 0
      invariant Range(0, n, batchSize) == done + Range(i, n, batchSize)
      invariant calls == CallsFor(BatchesAt(images, done, batchSize))
      invariant allEmbeddings == Outputs(encode, calls)
      invariant progress == ProgressFor(done, n, batchSize)
      decreases if batchSize > 0 then n - i else 0
    {
      var batch := Slice(images, i, i + batchSize);
      BatchStep(encode, images, done, i, batchSize);
      OutputsSnoc(encode, calls, EncoderCall(batch, |batch|));
      progress := progress + [Progress(i / batchSize + 1, (n + batchSize - 1) / batchSize)];
      var batchEmbeddings := encode(batch, |batch|);
      calls := calls + [EncoderCall(batch, |batch|)];
      allEmbeddings := allEmbeddings + [batchEmbeddings];
      done := done + [i];
      i := i + batchSize;
    }
    assert done == Range(0, n, batchSize);
    if allEmbeddings == [] {
      return Err(NothingToConcatenate), calls, progress;
    }
    r := Ok(Flatten(allEmbeddings));
  }

  /** `batch_process_images`: preprocess every input, then encode the images batch by batch
      and concatenate the encoder's rows; any failure reaches the caller. */
  method BatchProcessImages<Row>(loader: Loader, encode: (seq<Image>, int) -> seq<Row>,
                                 imageInputs: seq<ImageInput>, batchSize: int)
    returns (r: Result<seq<Row>>, calls: seq<EncoderCall>, progress: seq<Progress>)
    ensures BatchRun(r, calls, progress) == BatchProcess(loader, encode, imageInputs, batchSize)
  {
    var images := PreprocessImages(loader, imageInputs);
    if images.Err? {
      return Err(images.error), [], [];
    }
    r, calls, progress := EncodeImagesInBatches(encode, images.value, batchSize);
  }

  function Min(a: int, b: int): int
  {
    if a <= b then a else b
  }

  /** The batch start offsets are exactly 0, b, 2b, ... below n, and there are ceil(n / b) of them. */
  lemma BatchOffsets(n: nat, b: int)
    requires b > 0
    ensures |Range(0, n, b)| == (n + b - 1) / b
    ensures forall k :: 0 <= k < |Range(0, n, b)| ==> Range(0, n, b)[k] == k * b
    ensures forall v :: v in Range(0, n, b) <==> 0 <= v < n && v % b == 0
  {
    RangeLength(0, n, b);
    forall k | 0 <= k < |Range(0, n, b)|
      ensures Range(0, n, b)[k] == k * b
    {
      RangeAt(0, n, b, k);
    }
    forall v
      ensures v in Range(0, n, b) <==> 0 <= v < n && v % b == 0
    {
      RangeMembers(0, n, b, v);
    }
  }

  lemma {:induction false} FlattenBatchesFrom<T>(images: seq<T>, start: nat, b: int)
    requires b > 0 && start <= |images|
    ensures Flatten(BatchesAt(images, Range(start, |images|, b), b)) == images[start..]
    decreases |images| - start
  {
    var n := |images|;
    if start < n {
      var rest := Range(start + b, n, b);
      assert BatchesAt(images, Range(start, n, b), b)
          == [Slice(images, start, start + b)] + BatchesAt(images, rest, b);
      FlattenCons(Slice(images, start, start + b), BatchesAt(images, rest, b));
      if start + b < n {
        FlattenBatchesFrom(images, start + b, b);
        assert images[start..] == images[start..start + b] + images[start + b..];
      } else {
        assert rest == [];
      }
    }
  }

  /** The batch at position k starts at k * b and holds the next b images, or the rest. */
  lemma BatchAt<T>(images: seq<T>, b: int, k: nat)
    requires b > 0 && k < |Batches(images, b)|
    ensures k * b < |images|
    ensures Batches(images, b)[k] == images[k * b..Min(k * b + b, |images|)]
    ensures 0 < |Batches(images, b)[k]| <= b
    ensures k + 1 < |Batches(images, b)| ==> |Batches(images, b)[k]| == b
  {
    var n := |images|;
    RangeAt(0, n, b, k);
    if k + 1 < |Batches(images, b)| {
      RangeAt(0, n, b, k + 1);
      assert (k + 1) * b == k * b + b;
    }
  }

  /** The batches partition the images in order: concatenated they give the list back,
      and there are ceil(n / b) of them. */
  lemma BatchesPartition<T>(images: seq<T>, b: int)
    requires b > 0
    ensures |Batches(images, b)| == (|images| + b - 1) / b
    ensures Flatten(Batches(images, b)) == images
  {
    RangeLength(0, |images|, b);
    FlattenBatchesFrom(images, 0, b);
  }

  /** Each encoder call gets the next batch with `batch_size=len(batch)`, and the progress log
      counts the batches from 1 up to their number. */
  lemma BatchProcessCalls<Row>(loader: Loader, encode: (seq<Image>, int) -> seq<Row>,
                               inputs: seq<ImageInput>, b: int)
    requires PreprocessAll(loader, inputs).Ok? && b > 0
    ensures var images := PreprocessAll(loader, inputs).value;
      var run := BatchProcess(loader, encode, inputs, b);
      && |run.calls| == |Batches(images, b)| == |run.progress| == (|images| + b - 1) / b
      && (forall k :: 0 <= k < |run.calls| ==>
            run.calls[k].batch == Batches(images, b)[k] && run.calls[k].batchSize == |run.calls[k].batch|)
      && (forall k :: 0 <= k < |run.progress| ==> run.progress[k] == Progress(k + 1, |run.calls|))
  {
    var images := PreprocessAll(loader, inputs).value;
    var n := |images|;
    RangeLength(0, n, b);
    forall k | 0 <= k < |Range(0, n, b)|
      ensures Range(0, n, b)[k] / b == k
    {
      RangeAt(0, n, b, k);
      DivUnique(k * b, b, k, 0);
    }
  }

  /** When `batch_process_images` returns rows and when it raises, and which exception:
      a preprocessing failure escapes before any encoder call, a zero batch size makes
      `range` raise, and no batch at all (no images, or a negative batch size) makes the
      concatenation raise. */
  lemma BatchProcessOutcome<Row>(loader: Loader, encode: (seq<Image>, int) -> seq<Row>,
                                 inputs: seq<ImageInput>, b: int)
    ensures var run := BatchProcess(loader, encode, inputs, b);
      && (PreprocessAll(loader, inputs).Err? ==>
            run == BatchRun(Err(PreprocessAll(loader, inputs).error), [], []))
      && (PreprocessAll(loader, inputs).Ok? && b == 0 ==> run == BatchRun(Err(ZeroBatchSize), [], []))
      && (PreprocessAll(loader, inputs).Ok? && b != 0 && (inputs == [] || b < 0) ==>
            run == BatchRun(Err(NothingToConcatenate), [], []))
      && (run.result.Ok? <==> PreprocessAll(loader, inputs).Ok? && b > 0 && inputs != [])
  {
    if PreprocessAll(loader, inputs).Ok? && b < 0 {
      RangeNegativeStepEmpty(0, |inputs|, b);
    }
  }

  /** The row an encoder gives each image of a batch, when it encodes image by image. */
  function EmbedEach<Row>(embed: Image -> Row, images: seq<Image>): seq<Row>
  {
    seq(|images|, k requires 0 <= k < |images| => embed(images[k]))
  }

  /** The encoder maps each batch to one row per image, in order. */
  ghost predicate RowWise<Row>(encode: (seq<Image>, int) -> seq<Row>, embed: Image -> Row)
  {
    forall batch: seq<Image> :: encode(batch, |batch|) == EmbedEach(embed, batch)
  }

  lemma {:induction false} FlattenOutputsRowWise<Row>(encode: (seq<Image>, int) -> seq<Row>, embed: Image -> Row,
                                                      batches: seq<seq<Image>>)
    requires RowWise(encode, embed)
    ensures Flatten(Outputs(encode, CallsFor(batches))) == EmbedEach(embed, Flatten(batches))
    decreases |batches|
  {
    if batches != [] {
      var front := batches[..|batches| - 1];
      var last := batches[|batches| - 1];
      assert CallsFor(batches)[..|batches| - 1] == CallsFor(front);
      assert Outputs(encode, CallsFor(batches))[..|batches| - 1] == Outputs(encode, CallsFor(front));
      FlattenOutputsRowWise(encode, embed, front);
      assert EmbedEach(embed, Flatten(front) + last) == EmbedEach(embed, Flatten(front)) + EmbedEach(embed, last);
    }
  }

  /** With an encoder that embeds image by image, row k of the result is the embedding of
      the k-th preprocessed input: the output order follows the input order. */
  lemma RowOrderFollowsInput<Row>(loader: Loader, encode: (seq<Image>, int) -> seq<Row>, embed: Image -> Row,
                                  inputs: seq<ImageInput>, b: int)
    requires RowWise(encode, embed) && b > 0 && inputs != []
    requires PreprocessAll(loader, inputs).Ok?
    ensures BatchProcess(loader, encode, inputs, b).result == Ok(EmbedEach(embed, PreprocessAll(loader, inputs).value))
  {
    var images := PreprocessAll(loader, inputs).value;
    BatchesPartition(images, b);
    FlattenOutputsRowWise(encode, embed, Batches(images, b));
  }

  /** With such an encoder the batch size does not change what is returned or raised, as long as it is positive. */
  lemma BatchSizeIsInvisible<Row>(loader: Loader, encode: (seq<Image>, int) -> seq<Row>, embed: Image -> Row,
                                 inputs: seq<ImageInput>, b1: int, b2: int)
    requires RowWise(encode, embed) && b1 > 0 && b2 > 0
    ensures BatchProcess(loader, encode, inputs, b1).result == BatchProcess(loader, encode, inputs, b2).result
  {
    if PreprocessAll(loader, inputs).Ok? && inputs != [] {
      RowOrderFollowsInput(loader, encode, embed, inputs, b1);
      RowOrderFollowsInput(loader, encode, embed, inputs, b2);
    }
  }

  // Ranking candidates against a query

  /** Every entry of `order` is a valid index into the scores. */
  ghost predicate InRange(order: seq<nat>, n: nat)
  {
    forall k :: 0 <= k < |order| ==> order[k] < n
  }

  ghost predicate Distinct(order: seq<nat>)
  {
    forall k, l :: 0 <= k < l < |order| ==> order[k] != order[l]
  }

  /** The indices are listed by non-decreasing score. */
  ghost predicate Ascending(scores: seq<int>, order: seq<nat>)
    requires InRange(order, |scores|)
  {
    forall k, l :: 0 <= k < l < |order| ==> scores[order[k]] <= scores[order[l]]
  }

  /** What `np.argsort(scores)` promises: each index exactly once, by non-decreasing score.
      The order among equal scores is left open, as NumPy's default sort does not fix it. */
  ghost predicate IsArgsort(scores: seq<int>, order: seq<nat>)
  {
    && |order| == |scores|
    && InRange(order, |scores|)
    && Distinct(order)
    && (forall j :: 0 <= j < |scores| ==> j in order)
    && Ascending(scores, order)
  }

  lemma ConsAscending(scores: seq<int>, h: nat, s: seq<nat>)
    requires h < |scores| && InRange(s, |scores|) && Ascending(scores, s)
    requires forall k :: 0 <= k < |s| ==> scores[h] <= scores[s[k]]
    ensures InRange([h] + s, |scores|) && Ascending(scores, [h] + s)
  {
    var t := [h] + s;
    forall k, l | 0 <= k < l < |t|
      ensures scores[t[k]] <= scores[t[l]]
    {
      if k > 0 {
        assert t[k] == s[k - 1] && t[l] == s[l - 1];
      }
    }
  }

  lemma ConsDistinct(h: nat, s: seq<nat>)
    ensures Distinct(s) && h !in s ==> Distinct([h] + s)
  {
    var t := [h] + s;
    forall k, l | 0 <= k < l < |t| && Distinct(s) && h !in s
      ensures t[k] != t[l]
    {
      if k > 0 {
        assert t[k] == s[k - 1] && t[l] == s[l - 1];
      } else {
        assert t[l] == s[l - 1];
      }
    }
  }

  function InsertByScore(scores: seq<int>, x: nat, sorted: seq<nat>): (r: seq<nat>)
    requires x < |scores| && InRange(sorted, |scores|)
    ensures multiset(r) == multiset(sorted) + multiset{x}
    ensures InRange(r, |scores|)
  {
    if sorted == [] then [x]
    else if scores[x] <= scores[sorted[0]] then [x] + sorted
    else
      assert sorted == [sorted[0]] + sorted[1..];
      [sorted[0]] + InsertByScore(scores, x, sorted[1..])
  }

  /** An index of the insertion's result is the inserted one or one of the old ones. */
  lemma InsertedFrom(scores: seq<int>, x: nat, sorted: seq<nat>, k: nat)
    requires x < |scores| && InRange(sorted, |scores|)
    requires k < |InsertByScore(scores, x, sorted)|
    ensures InsertByScore(scores, x, sorted)[k] == x || InsertByScore(scores, x, sorted)[k] in sorted
  {
    var r := InsertByScore(scores, x, sorted);
    assert r[k] in multiset(r);
  }

  /** Inserting into a list sorted by score keeps it sorted. */
  lemma {:induction false} InsertKeepsAscending(scores: seq<int>, x: nat, sorted: seq<nat>)
    requires x < |scores| && InRange(sorted, |scores|) && Ascending(scores, sorted)
    ensures Ascending(scores, InsertByScore(scores, x, sorted))
  {
    if sorted == [] {
    } else if scores[x] <= scores[sorted[0]] {
      ConsAscending(scores, x, sorted);
    } else {
      var h, tail := sorted[0], sorted[1..];
      assert sorted == [h] + tail;
      var rest := InsertByScore(scores, x, tail);
      InsertKeepsAscending(scores, x, tail);
      forall k | 0 <= k < |rest|
        ensures scores[h] <= scores[rest[k]]
      {
        InsertedFrom(scores, x, tail, k);
      }
      ConsAscending(scores, h, rest);
    }
  }

  /** Inserting an index not yet present keeps the list free of duplicates. */
  lemma {:induction false} InsertKeepsDistinct(scores: seq<int>, x: nat, sorted: seq<nat>)
    requires x < |scores| && InRange(sorted, |scores|) && Distinct(sorted) && x !in sorted
    ensures Distinct(InsertByScore(scores, x, sorted))
  {
    if sorted == [] {
    } else if scores[x] <= scores[sorted[0]] {
      ConsDistinct(x, sorted);
    } else {
      var h, tail := sorted[0], sorted[1..];
      assert sorted == [h] + tail;
      var rest := InsertByScore(scores, x, tail);
      InsertKeepsDistinct(scores, x, tail);
      assert h !in multiset(rest);
      ConsDistinct(h, rest);
    }
  }

  /** The indices 0 .. m-1 sorted by score, by insertion. */
  function SortIndices(scores: seq<int>, m: nat): (r: seq<nat>)
    requires m <= |scores|
    ensures |r| == m
    ensures forall e: nat :: e in r <==> e < m
    ensures InRange(r, |scores|) && Distinct(r) && Ascending(scores, r)
  {
    if m == 0 then []
    else
      var sorted := SortIndices(scores, m - 1);
      InsertKeepsAscending(scores, m - 1, sorted);
      InsertKeepsDistinct(scores, m - 1, sorted);
      var r := InsertByScore(scores, m - 1, sorted);
      InsertedMembers(scores, m - 1, sorted);
      r
  }

  lemma InsertedMembers(scores: seq<int>, x: nat, sorted: seq<nat>)
    requires x < |scores| && InRange(sorted, |scores|)
    ensures |InsertByScore(scores, x, sorted)| == |sorted| + 1
    ensures forall e :: e in InsertByScore(scores, x, sorted) <==> e == x || e in sorted
  {
    var r := InsertByScore(scores, x, sorted);
    assert |multiset(r)| == |multiset(sorted)| + 1;
    forall e
      ensures e in r <==> e == x || e in sorted
    {
      assert e in r <==> e in multiset(r);
      assert e in sorted <==> e in multiset(sorted);
    }
  }

  /** One particular `np.argsort`: ties keep their index order. */
  function ArgSort(scores: seq<int>): (r: seq<nat>)
    ensures IsArgsort(scores, r)
  {
    SortIndices(scores, |scores|)
  }

  /** What `find_most_similar` returns: the chosen indices and their scores. */
  datatype Ranking = Ranking(indices: seq<nat>, similarities: seq<int>)

  /** `similarities`: the score of each candidate against the query. */
  function Similarities<E>(query: E, candidates: seq<E>, similarity: (E, E) -> int): seq<int>
  {
    seq(|candidates|, k requires 0 <= k < |candidates| => similarity(candidates[k], query))
  }

  /** How many entries `s[:topK]` keeps of a sequence of length n. */
  function TopCount(n: nat, topK: int): nat
  {
    if topK >= 0 then Min(topK, n) else if n + topK < 0 then 0 else n + topK
  }

  /** The indices are listed by non-increasing score. */
  ghost predicate Descending(scores: seq<int>, order: seq<nat>)
    requires InRange(order, |scores|)
  {
    forall k, l :: 0 <= k < l < |order| ==> scores[order[k]] >= scores[order[l]]
  }

  lemma SlicePrefix<T>(s: seq<T>, topK: int)
    ensures Slice(s, 0, topK) == s[..TopCount(|s|, topK)]
  {
  }

  /** An argsort read backwards lists every index once, by non-increasing score. */
  lemma ReversedArgsort(scores: seq<int>, order: seq<nat>)
    requires IsArgsort(scores, order)
    ensures var desc := Reversed(order);
      && |desc| == |scores| && InRange(desc, |scores|) && Distinct(desc)
      && (forall j :: 0 <= j < |scores| ==> j in desc)
      && Descending(scores, desc)
  {
    var n, desc := |scores|, Reversed(order);
    forall j | 0 <= j < n
      ensures j in desc
    {
      assert j in order;
      var p :| 0 <= p < n && order[p] == j;
      assert desc[n - 1 - p] == j;
    }
    forall k, l | 0 <= k < l < n
      ensures desc[k] != desc[l] && scores[desc[k]] >= scores[desc[l]]
    {
      assert desc[k] == order[n - 1 - k] && desc[l] == order[n - 1 - l];
    }
  }

  lemma PrefixKeepsOrder(scores: seq<int>, s: seq<nat>, c: nat)
    requires c <= |s| && InRange(s, |scores|) && Distinct(s) && Descending(scores, s)
    ensures InRange(s[..c], |scores|) && Distinct(s[..c]) && Descending(scores, s[..c])
  {
  }

  /** `argsort(scores)[::-1][:topK]` for ANY argsort order: the count Python's slicing keeps,
      distinct valid indices, by non-increasing score, and no index left out scores higher
      than one kept. */
  lemma TopOfArgsort(scores: seq<int>, order: seq<nat>, topK: int)
    requires IsArgsort(scores, order)
    ensures var top := Slice(Reversed(order), 0, topK);
      && |top| == TopCount(|scores|, topK)
      && InRange(top, |scores|)
      && Distinct(top)
      && Descending(scores, top)
      && (forall j, k :: 0 <= j < |scores| && j !in top && 0 <= k < |top| ==> scores[j] <= scores[top[k]])
  {
    var n, desc := |scores|, Reversed(order);
    ReversedArgsort(scores, order);
    SlicePrefix(desc, topK);
    var c := TopCount(n, topK);
    var top := desc[..c];
    PrefixKeepsOrder(scores, desc, c);
    forall j, k | 0 <= j < n && j !in top && 0 <= k < c
      ensures scores[j] <= scores[top[k]]
    {
      assert j in desc;
      var p :| 0 <= p < n && desc[p] == j;
      assert p >= c;
    }
  }

  /** `find_most_similar`: the (at most) topK candidates scoring highest against the query. */
  function FindMostSimilar<E>(query: E, candidates: seq<E>, topK: int, similarity: (E, E) -> int): (r: Ranking)
    ensures var scores := Similarities(query, candidates, similarity);
      && |r.indices| == TopCount(|candidates|, topK)
      && InRange(r.indices, |candidates|)
      && Distinct(r.indices)
      && |r.similarities| == |r.indices|
      && (forall k :: 0 <= k < |r.indices| ==> r.similarities[k] == scores[r.indices[k]])
      && Descending(scores, r.indices)
      && (forall j, k :: 0 <= j < |candidates| && j !in r.indices && 0 <= k < |r.indices| ==>
            scores[j] <= r.similarities[k])
  {
    var scores := Similarities(query, candidates, similarity);
    var order := ArgSort(scores);
    var top := Slice(Reversed(order), 0, topK);
    TopOfArgsort(scores, order, topK);
    Ranking(top, seq(|top|, k requires 0 <= k < |top| => scores[top[k]]))
  }

  /** A smaller topK returns a prefix of what a larger one returns. */
  lemma TopKIsPrefix<E>(query: E, candidates: seq<E>, k1: int, k2: int, similarity: (E, E) -> int)
    requires 0 <= k1 <= k2
    ensures var r1 := FindMostSimilar(query, candidates, k1, similarity);
      var r2 := FindMostSimilar(query, candidates, k2, similarity);
      && r1.indices == r2.indices[..|r1.indices|]
      && r1.similarities == r2.similarities[..|r1.similarities|]
  {
  }

  /** A call with the default batch size: one encoder call per run of at most 32 images,
      ceil(n / 32) of them, and rows exactly when there is an input. */
  lemma DefaultBatchProcess<Row>(loader: Loader, encode: (seq<Image>, int) -> seq<Row>, inputs: seq<ImageInput>)
    requires PreprocessAll(loader, inputs).Ok?
    ensures var run := BatchProcess(loader, encode, inputs, DefaultBatchSize);
      && |run.calls| == (|inputs| + 31) / 32
      && (forall k :: 0 <= k < |run.calls| ==> 0 < |run.calls[k].batch| <= 32)
      && (run.result.Ok? <==> inputs != [])
  {
    var images := PreprocessAll(loader, inputs).value;
    var run := BatchProcess(loader, encode, inputs, DefaultBatchSize);
    BatchProcessCalls(loader, encode, inputs, DefaultBatchSize);
    BatchProcessOutcome(loader, encode, inputs, DefaultBatchSize);
    forall k | 0 <= k < |run.calls| ensures 0 < |run.calls[k].batch| <= 32 {
      BatchAt(images, DefaultBatchSize, k);
    }
  }

  /** A call with the default top_k returns the ten best candidates, or all of them when
      there are fewer. */
  lemma DefaultTopKCount<E>(query: E, candidates: seq<E>, similarity: (E, E) -> int)
    ensures |FindMostSimilar(query, candidates, DefaultTopK, similarity).indices| == Min(10, |candidates|)
  {
  }
}

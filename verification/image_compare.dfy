/**
  Region by region comparison of two screenshots (`compare_region` and `compare` in
  scripts/ui_visual_diff.py).
 */
module ImageCompare {
  import opened Wrappers
  import opened Png

  /** Tightly packed RGB rows. */
  datatype Image = Image(width: nat, height: nat, pixels: seq<Byte>) {
    ghost predicate Valid() {
      |pixels| == Offset(width, 0, height)
    }
  }

  datatype Region = Region(name: string, x: int, y: int, width: int, height: int)

  datatype Thresholds = Thresholds(channelDelta: int, changedRatio: real)

  datatype Status = Pass | Fail | Excepted(reason: string)

  datatype RegionResult = RegionResult(name: string, status: Status, changed: nat, total: nat, maxDelta: nat)

  datatype Report = Report(results: seq<RegionResult>, stale: seq<string>)

  datatype CompareError = SizesDiffer | OutsideImage(name: string)

  type Pixel = (nat, nat)

  function Offset(width: nat, x: nat, y: nat): nat {
    3 * (y * width + x)
  }

  lemma OffsetsApart(width: nat, x: nat, y: nat, x': nat, y': nat)
    requires x < width && x' < width && (x, y) != (x', y')
    ensures Offset(width, x, y) + 3 <= Offset(width, x', y') || Offset(width, x', y') + 3 <= Offset(width, x, y)
  {
    if y < y' {
      RowsApart(width, y, y');
    } else if y' < y {
      RowsApart(width, y', y);
    }
  }

  lemma RowsApart(width: nat, y: nat, y': nat)
    requires y < y'
    ensures y * width + width <= y' * width
  {
    var gap := y' - y - 1;
    assert y' * width == (y + 1 + gap) * width == y * width + width + gap * width;
  }

  lemma OffsetInside(width: nat, height: nat, x: nat, y: nat)
    requires x < width && y < height
    ensures Offset(width, x, y) + 3 <= Offset(width, 0, height)
  {
    RowsApart(width, y, height);
  }

  predicate InsideImage(region: Region, image: Image) {
    && region.x >= 0 && region.y >= 0 && region.width > 0 && region.height > 0
    && region.x + region.width <= image.width && region.y + region.height <= image.height
  }

  predicate InRegion(region: Region, x: int, y: int) {
    region.x <= x < region.x + region.width && region.y <= y < region.y + region.height
  }

  predicate InImage(image: Image, x: int, y: int) {
    0 <= x < image.width && 0 <= y < image.height
  }

  /** A region is inside an image exactly when it is not empty and all of its pixels are pixels of the image. */
  lemma InsideMeansAllPixels(region: Region, image: Image)
    ensures InsideImage(region, image)
        <==> && region.width > 0 && region.height > 0
             && forall x, y :: InRegion(region, x, y) ==> InImage(image, x, y)
  {
    if region.width > 0 && region.height > 0 && forall x, y :: InRegion(region, x, y) ==> InImage(image, x, y) {
      assert InRegion(region, region.x, region.y);
      assert InRegion(region, region.x + region.width - 1, region.y + region.height - 1);
    }
  }

  predicate Covers(region: Region, p: Pixel) {
    region.x <= p.0 < region.x + region.width && region.y <= p.1 < region.y + region.height
  }

  /** The two images, of one size, that a comparison reads and never writes. */
  ghost predicate Comparable(baseline: Image, actual: Image) {
    baseline.Valid() && actual.Valid() && baseline.width == actual.width && baseline.height == actual.height
  }

  function Channel(image: Image, p: Pixel, c: nat): Byte
    requires image.Valid() && p.0 < image.width && p.1 < image.height && c < 3
  {
    OffsetInside(image.width, image.height, p.0, p.1);
    image.pixels[Offset(image.width, p.0, p.1) + c]
  }

  /** The largest difference of one pixel over its three channels. */
  function Delta(baseline: Image, actual: Image, p: Pixel): nat
    requires Comparable(baseline, actual) && p.0 < baseline.width && p.1 < baseline.height
  {
    Max(Abs(Channel(baseline, p, 0) - Channel(actual, p, 0)),
        Max(Abs(Channel(baseline, p, 1) - Channel(actual, p, 1)), Abs(Channel(baseline, p, 2) - Channel(actual, p, 2))))
  }

  function Max(a: nat, b: nat): nat {
    if a < b then b else a
  }

  function Pixels(region: Region): set<Pixel>
    requires region.x >= 0 && region.y >= 0
  {
    set x: nat, y: nat | region.x <= x < region.x + region.width && region.y <= y < region.y + region.height :: (x, y)
  }

  /** The pixels of a region that changed by more than the threshold. */
  ghost function Changed(baseline: Image, actual: Image, region: Region, threshold: int): set<Pixel>
    requires Comparable(baseline, actual) && InsideImage(region, baseline)
  {
    set p | p in Pixels(region) && Delta(baseline, actual, p) > threshold
  }

  /** The bytes of one channel of a pixel are further apart than the threshold, in one direction or the other. */
  predicate Apart(baseline: Image, actual: Image, p: Pixel, c: nat, threshold: int)
    requires Comparable(baseline, actual) && p.0 < baseline.width && p.1 < baseline.height && c < 3
  {
    OffsetInside(baseline.width, baseline.height, p.0, p.1);
    var i := (p.1 * baseline.width + p.0) * 3 + c;
    baseline.pixels[i] as int - actual.pixels[i] as int > threshold
    || actual.pixels[i] as int - baseline.pixels[i] as int > threshold
  }

  /** A row of a region whose bytes are the same in both images. */
  predicate SameRow(baseline: Image, actual: Image, region: Region, y: nat)
    requires baseline.Valid() && actual.Valid() && baseline.width == actual.width && baseline.height == actual.height
    requires InsideImage(region, baseline) && y < baseline.height
  {
    OffsetInside(baseline.width, baseline.height, region.x + region.width - 1, y);
    var start := Offset(baseline.width, region.x, y);
    baseline.pixels[start..start + 3 * region.width] == actual.pixels[start..start + 3 * region.width]
  }

  /** What the comparison marks: equal rows are passed over before any threshold is applied. */
  ghost function Marked(baseline: Image, actual: Image, region: Region, threshold: int): set<Pixel>
    requires Comparable(baseline, actual) && InsideImage(region, baseline)
  {
    set p | p in Changed(baseline, actual, region, threshold) && !SameRow(baseline, actual, region, p.1)
  }

  lemma SameRowMeansNoDelta(baseline: Image, actual: Image, region: Region, p: Pixel)
    requires Comparable(baseline, actual) && InsideImage(region, baseline) && p in Pixels(region)
    requires SameRow(baseline, actual, region, p.1)
    ensures Delta(baseline, actual, p) == 0
  {
    hide Offset;
    OffsetInside(baseline.width, baseline.height, region.x + region.width - 1, p.1);
    OffsetStep(baseline.width, region.x, region.x + region.width - 1, p.1);
    OffsetStep(baseline.width, region.x, p.0, p.1);
    var start, at := Offset(baseline.width, region.x, p.1), Offset(baseline.width, p.0, p.1);
    SliceEqual(baseline.pixels, actual.pixels, start, 3 * region.width, at);
    SliceEqual(baseline.pixels, actual.pixels, start, 3 * region.width, at + 1);
    SliceEqual(baseline.pixels, actual.pixels, start, 3 * region.width, at + 2);
  }

  lemma SliceEqual(a: seq<Byte>, b: seq<Byte>, start: nat, length: nat, i: nat)
    requires start + length <= |a| == |b| && a[start..start + length] == b[start..start + length]
    requires start <= i < start + length
    ensures a[i] == b[i]
  {
    assert a[start..start + length][i - start] == b[start..start + length][i - start];
  }

  lemma OffsetStep(width: nat, x: nat, x': nat, y: nat)
    requires x <= x'
    ensures Offset(width, x', y) == Offset(width, x, y) + 3 * (x' - x)
  {
  }

  /**
    The comparison counts exactly the changed pixels if and only if the threshold is not negative or no
    row of the region is the same in both images: a negative threshold calls every pixel changed, but
    equal rows are never looked at.
   */
  lemma ExactUnlessNegativeThreshold(baseline: Image, actual: Image, region: Region, threshold: int)
    requires Comparable(baseline, actual) && InsideImage(region, baseline)
    ensures Marked(baseline, actual, region, threshold) <= Changed(baseline, actual, region, threshold)
    ensures |Marked(baseline, actual, region, threshold)| == |Changed(baseline, actual, region, threshold)| <==>
            threshold >= 0
            || forall y :: region.y <= y < region.y + region.height ==> !SameRow(baseline, actual, region, y)
    ensures threshold >= 0 ==>
        Marked(baseline, actual, region, threshold) == Changed(baseline, actual, region, threshold)
  {
    var marked, changed := Marked(baseline, actual, region, threshold), Changed(baseline, actual, region, threshold);
    forall p | p in changed && threshold >= 0 ensures p in marked {
      if SameRow(baseline, actual, region, p.1) { SameRowMeansNoDelta(baseline, actual, region, p); }
    }
    if y: nat :| region.y <= y < region.y + region.height && SameRow(baseline, actual, region, y) && threshold < 0 {
      var p: Pixel := (region.x, y);
      assert p in changed - marked;
      assert |marked| + |changed - marked| == |changed| by { assert marked + (changed - marked) == changed; }
    } else {
      assert marked == changed;
    }
  }

  /** So at a negative threshold any image against itself: every pixel counts as changed, and none is marked. */
  lemma SameImageAtNegativeThreshold(image: Image, region: Region)
    requires image.Valid() && InsideImage(region, image)
    ensures Comparable(image, image)
    ensures Changed(image, image, region, -1) == Pixels(region) && Pixels(region) != {}
    ensures Marked(image, image, region, -1) == {}
  {
    hide Offset, Channel;
    var corner: Pixel := (region.x, region.y);
    assert corner in Pixels(region);
    forall p | p in Pixels(region) ensures SameRow(image, image, region, p.1) && Delta(image, image, p) > -1 {
    }
  }

  // ---- Over the bytes ----

  /** The pixels of a region with a channel that is further apart than the threshold. */
  ghost function FarPixels(baseline: Image, actual: Image, region: Region, threshold: int): set<Pixel>
    requires Comparable(baseline, actual) && InsideImage(region, baseline)
  {
    set x: nat, y: nat |
      && region.x <= x < region.x + region.width && region.y <= y < region.y + region.height
      && (Apart(baseline, actual, (x, y), 0, threshold) || Apart(baseline, actual, (x, y), 1, threshold)
          || Apart(baseline, actual, (x, y), 2, threshold))
      :: (x, y)
  }

  lemma DeltaOverBytes(baseline: Image, actual: Image, p: Pixel, threshold: int)
    requires Comparable(baseline, actual) && p.0 < baseline.width && p.1 < baseline.height
    ensures Delta(baseline, actual, p) > threshold
        <==> Apart(baseline, actual, p, 0, threshold) || Apart(baseline, actual, p, 1, threshold)
             || Apart(baseline, actual, p, 2, threshold)
  {
    assert Offset(baseline.width, p.0, p.1) == (p.1 * baseline.width + p.0) * 3;
  }

  /** At a threshold that is not negative the marked pixels are those with some channel further apart than it. */
  lemma MarkedOverBytes(baseline: Image, actual: Image, region: Region, threshold: nat)
    requires Comparable(baseline, actual) && InsideImage(region, baseline)
    ensures Marked(baseline, actual, region, threshold) == FarPixels(baseline, actual, region, threshold)
  {
    var far := FarPixels(baseline, actual, region, threshold);
    ExactUnlessNegativeThreshold(baseline, actual, region, threshold);
    hide Marked, Delta, Apart, SameRow, Offset;
    forall p ensures p in Changed(baseline, actual, region, threshold) <==> p in far {
      if p in Pixels(region) { DeltaOverBytes(baseline, actual, p, threshold); }
    }
  }

  /** The largest difference bounds every channel of every pixel of the region, and some channel reaches it. */
  ghost predicate LargestOverBytes(baseline: Image, actual: Image, region: Region, largest: nat)
    requires Comparable(baseline, actual) && InsideImage(region, baseline)
  {
    && FarPixels(baseline, actual, region, largest) == {}
    && (largest > 0 ==> FarPixels(baseline, actual, region, largest - 1) != {})
  }

  lemma MaxOverBytes(baseline: Image, actual: Image, region: Region, largest: nat)
    requires Comparable(baseline, actual) && InsideImage(region, baseline)
    requires IsMaxDelta(baseline, actual, region, 0, region.y + region.height, largest)
    ensures LargestOverBytes(baseline, actual, region, largest)
  {
    hide Delta, Apart, Offset;
    forall p | p in Pixels(region)
      ensures p !in FarPixels(baseline, actual, region, largest)
      ensures p in FarPixels(baseline, actual, region, largest - 1) <==> Delta(baseline, actual, p) == largest
    {
      DeltaOverBytes(baseline, actual, p, largest);
      DeltaOverBytes(baseline, actual, p, largest - 1);
    }
    if largest > 0 {
      var p :| p in Pixels(region) && Delta(baseline, actual, p) == largest;
      assert p in FarPixels(baseline, actual, region, largest - 1);
    }
  }

  // ---- The loops ----

  /** The diff image: red on the marked pixels, the baseline everywhere else. */
  ghost predicate Shows(diff: seq<Byte>, baseline: Image, marked: set<Pixel>) {
    && baseline.Valid() && |diff| == |baseline.pixels|
    && forall x: nat, y: nat {:trigger Offset(baseline.width, x, y)} | x < baseline.width && y < baseline.height ::
         PixelIs(diff, Offset(baseline.width, x, y), if (x, y) in marked then [255, 0, 0] else Rgb(baseline, (x, y)))
  }

  ghost predicate PixelIs(bytes: seq<Byte>, at: nat, rgb: seq<Byte>)
    requires |rgb| == 3
  {
    at + 3 <= |bytes| && bytes[at] == rgb[0] && bytes[at + 1] == rgb[1] && bytes[at + 2] == rgb[2]
  }

  function Rgb(image: Image, p: Pixel): (rgb: seq<Byte>)
    requires image.Valid() && p.0 < image.width && p.1 < image.height
    ensures |rgb| == 3
  {
    [Channel(image, p, 0), Channel(image, p, 1), Channel(image, p, 2)]
  }

  lemma PaintKeepsOthers(before: seq<Byte>, after: seq<Byte>, baseline: Image, marked: set<Pixel>, p: Pixel)
    requires Shows(before, baseline, marked) && p.0 < baseline.width && p.1 < baseline.height
    requires |after| == |before| && Offset(baseline.width, p.0, p.1) + 3 <= |after|
    requires forall i ::
        0 <= i < |after| && !(Offset(baseline.width, p.0, p.1) <= i < Offset(baseline.width, p.0, p.1) + 3) ==>
          after[i] == before[i]
    requires PixelIs(after, Offset(baseline.width, p.0, p.1), [255, 0, 0])
    ensures Shows(after, baseline, marked + {p})
  {
    forall x: nat, y: nat {:trigger Offset(baseline.width, x, y)} | x < baseline.width && y < baseline.height
      ensures PixelIs(after, Offset(baseline.width, x, y),
                      if (x, y) in marked + {p} then [255, 0, 0] else Rgb(baseline, (x, y)))
    {
      OffsetInside(baseline.width, baseline.height, x, y);
      if (x, y) != p {
        OffsetsApart(baseline.width, x, y, p.0, p.1);
      }
    }
  }

  /** The pixels of `marked` that a scan has met before column `x` of row `y`. */
  ghost function Met(marked: set<Pixel>, x: int, y: int): set<Pixel> {
    set p | p in marked && (p.1 < y || (p.1 == y && p.0 < x))
  }

  lemma MeetNext(marked: set<Pixel>, x: nat, y: nat)
    ensures Met(marked, x + 1, y) == (if (x, y) in marked then Met(marked, x, y) + {(x, y)} else Met(marked, x, y))
    ensures |Met(marked, x + 1, y)| == |Met(marked, x, y)| + (if (x, y) in marked then 1 else 0)
  {
    var before := Met(marked, x, y);
    assert (x, y) !in before;
    assert Met(marked, x + 1, y) == (if (x, y) in marked then before + {(x, y)} else before);
  }

  /** Columns outside the region hold no marked pixel, so a row can be entered and left at its edges. */
  lemma RowEdges(marked: set<Pixel>, left: int, right: int, y: nat)
    requires forall p :: p in marked && p.1 == y ==> left <= p.0 < right
    ensures Met(marked, left, y) == Met(marked, 0, y)
    ensures Met(marked, right, y) == Met(marked, 0, y + 1)
    ensures |Met(marked, left, y)| == |Met(marked, 0, y)| && |Met(marked, right, y)| == |Met(marked, 0, y + 1)|
  {
    assert Met(marked, left, y) == Met(marked, 0, y) && Met(marked, right, y) == Met(marked, 0, y + 1);
  }

  /** How many of the columns from `left` up to `x` are marked in row `y`. */
  ghost function CountRow(marked: set<Pixel>, left: nat, x: nat, y: nat): nat
    requires left <= x
    decreases x - left
  {
    if x == left then 0 else CountRow(marked, left, x - 1, y) + if (x - 1, y) in marked then 1 else 0
  }

  ghost function CountRows(marked: set<Pixel>, left: nat, right: nat, top: nat, y: nat): nat
    requires left <= right && top <= y
    decreases y - top
  {
    if y == top then 0 else CountRows(marked, left, right, top, y - 1) + CountRow(marked, left, right, y - 1)
  }

  lemma {:induction false} CountRowIsMet(marked: set<Pixel>, left: nat, x: nat, y: nat)
    requires left <= x
    ensures |Met(marked, x, y)| == |Met(marked, left, y)| + CountRow(marked, left, x, y)
    decreases x - left
  {
    if left < x {
      CountRowIsMet(marked, left, x - 1, y);
      MeetNext(marked, x - 1, y);
    }
  }

  lemma {:induction false} CountRowsIsMet(marked: set<Pixel>, left: nat, right: nat, top: nat, y: nat)
    requires left <= right && top <= y
    requires forall p :: p in marked ==> left <= p.0 < right && top <= p.1
    ensures CountRows(marked, left, right, top, y) == |Met(marked, 0, y)|
    decreases y - top
  {
    if top == y {
      assert Met(marked, 0, y) == {};
    } else {
      CountRowsIsMet(marked, left, right, top, y - 1);
      CountRowIsMet(marked, left, right, y - 1);
      RowEdges(marked, left, right, y - 1);
    }
  }

  ghost predicate IsMaxDelta(baseline: Image, actual: Image, region: Region, x: int, y: int, maxDelta: nat)
    requires Comparable(baseline, actual) && InsideImage(region, baseline)
  {
    && (forall p :: p in Pixels(region) && (p.1 < y || (p.1 == y && p.0 < x)) ==>
      Delta(baseline, actual, p) <= maxDelta)
    && (maxDelta > 0 ==> exists p :: p in Pixels(region) && Delta(baseline, actual, p) == maxDelta)
  }

  function Judge(region: Region, changed: nat, maxDelta: nat, thresholds: Thresholds): (result: RegionResult)
    requires region.width > 0 && region.height > 0
    ensures result.total == region.width * region.height > 0
    ensures result.changed == changed && result.maxDelta == maxDelta && result.name == region.name
    ensures result.status == if changed as real / result.total as real > thresholds.changedRatio then Fail else Pass
  {
    assert region.width * region.height > 0;
    var total := region.width * region.height;
    var ratio := changed as real / total as real;
    RegionResult(region.name, if ratio > thresholds.changedRatio then Fail else Pass, changed, total, maxDelta)
  }

  method Paint(diff: array<Byte>, baseline: Image, x: nat, y: nat, ghost marked: set<Pixel>)
    requires baseline.Valid() && x < baseline.width && y < baseline.height && Shows(diff[..], baseline, marked)
    modifies diff
    ensures Shows(diff[..], baseline, marked + {(x, y)})
  {
    ghost var before := diff[..];
    OffsetInside(baseline.width, baseline.height, x, y);
    var at := Offset(baseline.width, x, y);
    diff[at], diff[at + 1], diff[at + 2] := 255, 0, 0;
    PaintKeepsOthers(before, diff[..], baseline, marked, (x, y));
  }

  /** What `marked` says about row `y` of the region. */
  ghost predicate RowMarks(baseline: Image, actual: Image, region: Region, t: int, y: nat, marked: set<Pixel>)
    requires Comparable(baseline, actual) && InsideImage(region, baseline) && region.y <= y < region.y + region.height
  {
    && (forall p :: p in marked && p.1 == y ==> region.x <= p.0 < region.x + region.width)
    && (forall x: nat :: region.x <= x < region.x + region.width ==>
          ((x, y) in marked <==> Delta(baseline, actual, (x, y)) > t))
  }

  lemma MarkedRow(baseline: Image, actual: Image, region: Region, t: int, y: nat)
    requires Comparable(baseline, actual) && InsideImage(region, baseline) && region.y <= y < region.y + region.height
    requires !SameRow(baseline, actual, region, y)
    ensures RowMarks(baseline, actual, region, t, y, Marked(baseline, actual, region, t))
  {
    forall x: nat | region.x <= x < region.x + region.width
      ensures (x, y) in Marked(baseline, actual, region, t) <==> Delta(baseline, actual, (x, y)) > t
    {
      assert (x, y) in Pixels(region);
    }
  }

  method ComparePixel(baseline: Image, actual: Image, region: Region, t: int, x: nat, y: nat, diff: array<Byte>,
                      ghost marked: set<Pixel>, ghost shown: set<Pixel>, changedBefore: nat, maxBefore: nat)
    returns (changed: nat, maxDelta: nat)
    requires Comparable(baseline, actual) && InsideImage(region, baseline) && Covers(region, (x, y))
    requires RowMarks(baseline, actual, region, t, y, marked)
    requires IsMaxDelta(baseline, actual, region, x, y, maxBefore)
    requires Shows(diff[..], baseline, shown + Met(marked, x, y))
    modifies diff
    ensures changed == changedBefore + if (x, y) in marked then 1 else 0
    ensures IsMaxDelta(baseline, actual, region, x + 1, y, maxDelta)
    ensures Shows(diff[..], baseline, shown + Met(marked, x + 1, y))
  {
    var delta := Delta(baseline, actual, (x, y));
    MaxNext(baseline, actual, region, x, y, maxBefore);
    maxDelta := Max(maxBefore, delta);
    MeetNext(marked, x, y);
    changed := changedBefore;
    if delta > t {
      changed := changed + 1;
      ghost var before := shown + Met(marked, x, y);
      Paint(diff, baseline, x, y, before);
      assert before + {(x, y)} == shown + Met(marked, x + 1, y);
    }
  }

  lemma RowScanEdges(baseline: Image, actual: Image, region: Region, t: int, y: nat, marked: set<Pixel>, maxDelta: nat)
    requires Comparable(baseline, actual) && InsideImage(region, baseline) && region.y <= y < region.y + region.height
    requires RowMarks(baseline, actual, region, t, y, marked) && IsMaxDelta(baseline, actual, region, 0, y, maxDelta)
    ensures 0 <= region.x && 0 <= region.width && CountRow(marked, region.x, region.x, y) == 0
    ensures Met(marked, region.x, y) == Met(marked, 0, y)
    ensures Met(marked, region.x + region.width, y) == Met(marked, 0, y + 1)
    ensures IsMaxDelta(baseline, actual, region, region.x, y, maxDelta)
  {
    hide Delta, Channel;
    RowEdges(marked, region.x, region.x + region.width, y);
    MaxRowEdges(baseline, actual, region, y, maxDelta);
  }

  lemma InRow(region: Region, x: nat, y: nat)
    ensures Covers(region, (x, y))
        <==> region.x <= x < region.x + region.width && region.y <= y < region.y + region.height
  {
  }

  lemma CountRowNext(marked: set<Pixel>, left: nat, x: nat, y: nat)
    requires left <= x
    ensures CountRow(marked, left, x + 1, y) == CountRow(marked, left, x, y) + if (x, y) in marked then 1 else 0
  {
  }

  method CompareRow(baseline: Image, actual: Image, region: Region, t: int, y: nat, diff: array<Byte>,
                    ghost marked: set<Pixel>, ghost shown: set<Pixel>, changedBefore: nat, maxBefore: nat)
    returns (changed: nat, maxDelta: nat)
    requires Comparable(baseline, actual) && InsideImage(region, baseline) && region.y <= y < region.y + region.height
    requires RowMarks(baseline, actual, region, t, y, marked)
    requires IsMaxDelta(baseline, actual, region, 0, y, maxBefore)
    requires Shows(diff[..], baseline, shown + Met(marked, 0, y))
    modifies diff
    ensures changed == changedBefore + CountRow(marked, region.x, region.x + region.width, y)
    ensures IsMaxDelta(baseline, actual, region, 0, y + 1, maxDelta)
    ensures Shows(diff[..], baseline, shown + Met(marked, 0, y + 1))
  {
    hide *;
    RowScanEdges(baseline, actual, region, t, y, marked, maxBefore);
    changed, maxDelta := changedBefore, maxBefore;
    var x: nat := region.x;
    var right: nat := region.x + region.width;
    while x < right
      invariant region.x <= x <= right
      invariant changed == changedBefore + CountRow(marked, region.x, x, y)
      invariant IsMaxDelta(baseline, actual, region, x, y, maxDelta)
      invariant Shows(diff[..], baseline, shown + Met(marked, x, y))
    {
      CountRowNext(marked, region.x, x, y);
      InRow(region, x, y);
      changed, maxDelta := ComparePixel(baseline, actual, region, t, x, y, diff, marked, shown, changed, maxDelta);
      x := x + 1;
    }
    MaxRowEdges(baseline, actual, region, y, maxDelta);
  }

  method CompareRegion(baseline: Image, actual: Image, region: Region, thresholds: Thresholds, diff: array<Byte>,
      ghost shown: set<Pixel>)
    returns (result: RegionResult)
    requires Comparable(baseline, actual) && InsideImage(region, baseline)
    requires Shows(diff[..], baseline, shown)
    modifies diff
    ensures result == Judge(region, |Marked(baseline, actual, region, thresholds.channelDelta)|, result.maxDelta,
        thresholds)
    ensures IsMaxDelta(baseline, actual, region, 0, region.y + region.height, result.maxDelta)
    ensures Shows(diff[..], baseline, shown + Marked(baseline, actual, region, thresholds.channelDelta))
    ensures LargestOverBytes(baseline, actual, region, result.maxDelta)
    ensures thresholds.channelDelta >= 0 ==>
              result.changed == |FarPixels(baseline, actual, region, thresholds.channelDelta)|
  {
    hide *;
    var changed, maxDelta := 0, 0;
    RegionCorner(baseline, region);
    var y: nat := region.y;
    var t := thresholds.channelDelta;
    ghost var marked := Marked(baseline, actual, region, t);
    NothingScanned(baseline, actual, region, t, shown);
    while y < region.y + region.height
      invariant region.y <= y <= region.y + region.height
      invariant changed == CountRows(marked, region.x, region.x + region.width, region.y, y)
      invariant IsMaxDelta(baseline, actual, region, 0, y, maxDelta)
      invariant Shows(diff[..], baseline, shown + Met(marked, 0, y))
    {
      RowInside(baseline, actual, region, y);
      CountRowsNext(marked, region.x, region.x + region.width, region.y, y);
      if SameRow(baseline, actual, region, y) {
        SkipRow(baseline, actual, region, t, y, maxDelta);
      } else {
        MarkedRow(baseline, actual, region, t, y);
        changed, maxDelta := CompareRow(baseline, actual, region, t, y, diff, marked, shown, changed, maxDelta);
      }
      y := y + 1;
    }
    EverythingScanned(baseline, actual, region, t);
    result := Judge(region, changed, maxDelta, thresholds);
    MaxOverBytes(baseline, actual, region, maxDelta);
    if t >= 0 { MarkedOverBytes(baseline, actual, region, t); }
  }

  lemma RegionCorner(image: Image, region: Region)
    requires InsideImage(region, image)
    ensures region.x >= 0 && region.y >= 0 && region.width > 0 && region.height > 0
  {
  }

  lemma RowInside(baseline: Image, actual: Image, region: Region, y: nat)
    requires Comparable(baseline, actual) && InsideImage(region, baseline) && y < region.y + region.height
    ensures baseline.Valid() && actual.Valid() && baseline.width == actual.width && baseline.height == actual.height
    ensures y < baseline.height
  {
  }

  lemma CountRowsNext(marked: set<Pixel>, left: nat, right: nat, top: nat, y: nat)
    requires left <= right && top <= y
    ensures CountRows(marked, left, right, top, y + 1)
        == CountRows(marked, left, right, top, y) + CountRow(marked, left, right, y)
  {
  }

  lemma MarkedPixels(baseline: Image, actual: Image, region: Region, t: int)
    requires Comparable(baseline, actual) && InsideImage(region, baseline)
    ensures forall p :: p in Marked(baseline, actual, region, t) ==>
        Covers(region, p) && !SameRow(baseline, actual, region, p.1)
  {
  }

  lemma NothingScanned(baseline: Image, actual: Image, region: Region, t: int, shown: set<Pixel>)
    requires Comparable(baseline, actual) && InsideImage(region, baseline)
    ensures shown + Met(Marked(baseline, actual, region, t), 0, region.y) == shown
    ensures CountRows(Marked(baseline, actual, region, t), region.x, region.x + region.width, region.y, region.y) == 0
    ensures IsMaxDelta(baseline, actual, region, 0, region.y, 0)
  {
  }

  lemma EverythingScanned(baseline: Image, actual: Image, region: Region, t: int)
    requires Comparable(baseline, actual) && InsideImage(region, baseline)
    ensures var marked, bottom := Marked(baseline, actual, region, t), region.y + region.height;
            && Met(marked, 0, bottom) == marked
            && CountRows(marked, region.x, region.x + region.width, region.y, bottom) == |marked|
  {
    MarkedPixels(baseline, actual, region, t);
    assert 0 <= region.x && 0 <= region.y && 0 <= region.width && 0 <= region.height;
    hide Marked, Met, CountRows, Covers, SameRow, InsideImage, Comparable;
    AllMet(Marked(baseline, actual, region, t), region);
  }

  lemma AllMet(marked: set<Pixel>, region: Region)
    requires 0 <= region.x && 0 <= region.y && 0 <= region.width && 0 <= region.height
    requires forall p :: p in marked ==> Covers(region, p)
    ensures var bottom := region.y + region.height;
            && Met(marked, 0, bottom) == marked
            && CountRows(marked, region.x, region.x + region.width, region.y, bottom) == |marked|
  {
    CountRowsIsMet(marked, region.x, region.x + region.width, region.y, region.y + region.height);
    assert Met(marked, 0, region.y + region.height) == marked;
  }

  lemma {:induction false} NothingMarked(marked: set<Pixel>, left: nat, x: nat, y: nat)
    requires left <= x && forall p :: p in marked ==> p.1 != y
    ensures CountRow(marked, left, x, y) == 0
    ensures Met(marked, 0, y + 1) == Met(marked, 0, y)
    decreases x - left
  {
    if left < x { NothingMarked(marked, left, x - 1, y); }
  }

  lemma SkipRow(baseline: Image, actual: Image, region: Region, t: int, y: nat, maxDelta: nat)
    requires Comparable(baseline, actual) && InsideImage(region, baseline) && region.y <= y < region.y + region.height
    requires SameRow(baseline, actual, region, y) && IsMaxDelta(baseline, actual, region, 0, y, maxDelta)
    ensures var marked := Marked(baseline, actual, region, t);
            && Met(marked, 0, y + 1) == Met(marked, 0, y)
            && CountRow(marked, region.x, region.x + region.width, y) == 0
    ensures IsMaxDelta(baseline, actual, region, 0, y + 1, maxDelta)
  {
    hide Delta;
    MarkedPixels(baseline, actual, region, t);
    NothingMarked(Marked(baseline, actual, region, t), region.x, region.x + region.width, y);
    forall p | p in Pixels(region) && p.1 == y ensures Delta(baseline, actual, p) == 0 {
      SameRowMeansNoDelta(baseline, actual, region, p);
    }
  }

  lemma MaxRowEdges(baseline: Image, actual: Image, region: Region, y: nat, maxDelta: nat)
    requires Comparable(baseline, actual) && InsideImage(region, baseline)
    ensures IsMaxDelta(baseline, actual, region, 0, y, maxDelta) ==>
        IsMaxDelta(baseline, actual, region, region.x, y, maxDelta)
    ensures IsMaxDelta(baseline, actual, region, region.x + region.width, y, maxDelta) ==>
        IsMaxDelta(baseline, actual, region, 0, y + 1, maxDelta)
  {
  }

  lemma MaxNext(baseline: Image, actual: Image, region: Region, x: nat, y: nat, maxDelta: nat)
    requires Comparable(baseline, actual) && InsideImage(region, baseline) && Covers(region, (x, y))
    requires IsMaxDelta(baseline, actual, region, x, y, maxDelta)
    ensures IsMaxDelta(baseline, actual, region, x + 1, y, Max(maxDelta, Delta(baseline, actual, (x, y))))
  {
    assert (x, y) in Pixels(region);
  }

  // ---- All regions ----

  /** The pixels marked by any of the first `n` regions. */
  ghost function AllMarked(baseline: Image, actual: Image, regions: seq<Region>, threshold: int, n: nat): set<Pixel>
    requires Comparable(baseline, actual) && n <= |regions|
    requires forall i :: 0 <= i < n ==> InsideImage(regions[i], baseline)
  {
    if n == 0 then {}
    else AllMarked(baseline, actual, regions, threshold, n - 1) + Marked(baseline, actual, regions[n - 1], threshold)
  }

  /** An approved exception turns a failed region into an excepted one. */
  function Excuse(result: RegionResult, exceptions: map<string, string>): RegionResult {
    if result.name in exceptions && result.status.Fail? then result.(status := Excepted(exceptions[result.name]))
    else result
  }

  function Stale(result: RegionResult, exceptions: map<string, string>): seq<string> {
    if result.name in exceptions && !result.status.Fail? then [result.name] else []
  }

  function StaleNames(judged: seq<RegionResult>, exceptions: map<string, string>, n: nat): seq<string>
    requires n <= |judged|
  {
    if n == 0 then [] else StaleNames(judged, exceptions, n - 1) + Stale(judged[n - 1], exceptions)
  }

  /** The verdict on a region depends on that region and the two images alone. */
  ghost predicate Judged(baseline: Image, actual: Image, region: Region, thresholds: Thresholds, result: RegionResult)
    requires Comparable(baseline, actual) && InsideImage(region, baseline)
  {
    && result == Judge(region, |Marked(baseline, actual, region, thresholds.channelDelta)|, result.maxDelta, thresholds)
    && IsMaxDelta(baseline, actual, region, 0, region.y + region.height, result.maxDelta)
  }

  ghost predicate AllJudged(baseline: Image, actual: Image, regions: seq<Region>, thresholds: Thresholds,
      judged: seq<RegionResult>)
    requires Comparable(baseline, actual)
  {
    && |judged| <= |regions|
    && forall i :: 0 <= i < |judged| ==>
         InsideImage(regions[i], baseline) && Judged(baseline, actual, regions[i], thresholds, judged[i])
  }

  /** The report of a comparison, from the verdicts before exceptions. */
  predicate Reports(report: Report, judged: seq<RegionResult>, exceptions: map<string, string>) {
    && |report.results| == |judged|
    && (forall i :: 0 <= i < |judged| ==> report.results[i] == Excuse(judged[i], exceptions))
    && report.stale == StaleNames(judged, exceptions, |judged|)
  }

  /**
    What a report says of a region: the verdict, except that an approved exception excuses a failure, and only a
    failure. An exception is stale exactly when a region of its name needed none.
   */
  lemma ReportMeans(report: Report, judged: seq<RegionResult>, exceptions: map<string, string>, i: nat)
    requires Reports(report, judged, exceptions) && i < |judged|
    ensures var verdict, result := judged[i], report.results[i];
            && result.name == verdict.name && result.changed == verdict.changed && result.total == verdict.total
            && result.maxDelta == verdict.maxDelta
            && result.status == (if verdict.status == Fail && verdict.name in exceptions
                                 then Excepted(exceptions[verdict.name]) else verdict.status)
  {
  }

  lemma {:induction false} StaleAre(judged: seq<RegionResult>, exceptions: map<string, string>, n: nat, name: string)
    requires n <= |judged|
    ensures name in StaleNames(judged, exceptions, n)
        <==> name in exceptions && exists i :: 0 <= i < n && judged[i].name == name && judged[i].status != Fail
  {
    if n > 0 { StaleAre(judged, exceptions, n - 1, name); }
  }

  /** The first regions, as many as there are verdicts, have been judged, reported and shown. */
  ghost predicate Scanned(baseline: Image, actual: Image, regions: seq<Region>, exceptions: map<string, string>,
      thresholds: Thresholds, judged: seq<RegionResult>, report: Report, diff: seq<Byte>)
  {
    && Comparable(baseline, actual) && |judged| <= |regions|
    && (forall k :: 0 <= k < |judged| ==> InsideImage(regions[k], baseline))
    && AllJudged(baseline, actual, regions, thresholds, judged)
    && Reports(report, judged, exceptions)
    && Shows(diff, baseline, AllMarked(baseline, actual, regions, thresholds.channelDelta, |judged|))
  }

  lemma ScannedMeans(baseline: Image, actual: Image, regions: seq<Region>, exceptions: map<string, string>,
      thresholds: Thresholds, judged: seq<RegionResult>, report: Report, diff: seq<Byte>)
    requires Scanned(baseline, actual, regions, exceptions, thresholds, judged, report, diff)
    ensures Comparable(baseline, actual) && |judged| <= |regions|
    ensures forall k :: 0 <= k < |judged| ==> InsideImage(regions[k], baseline)
    ensures AllJudged(baseline, actual, regions, thresholds, judged) && Reports(report, judged, exceptions)
    ensures Shows(diff, baseline, AllMarked(baseline, actual, regions, thresholds.channelDelta, |judged|))
  {
    hide Comparable, InsideImage, AllJudged, Reports, Shows, AllMarked;
  }

  lemma StartScan(baseline: Image, actual: Image, regions: seq<Region>, exceptions: map<string, string>,
      thresholds: Thresholds, diff: seq<Byte>)
    requires Comparable(baseline, actual) && diff == baseline.pixels
    ensures Scanned(baseline, actual, regions, exceptions, thresholds, [], Report([], []), diff)
  {
    BlankShows(baseline, diff);
    StartReport(baseline, actual, regions, exceptions, thresholds);
    hide Shows, AllJudged, Reports, AllMarked;
  }

  lemma NextScanned(baseline: Image, actual: Image, regions: seq<Region>, exceptions: map<string, string>,
      thresholds: Thresholds, judged: seq<RegionResult>, report: Report, diff: seq<Byte>)
    requires Comparable(baseline, actual) && |judged| <= |regions|
    requires forall k :: 0 <= k < |judged| ==> InsideImage(regions[k], baseline)
    requires AllJudged(baseline, actual, regions, thresholds, judged) && Reports(report, judged, exceptions)
    requires Shows(diff, baseline, AllMarked(baseline, actual, regions, thresholds.channelDelta, |judged|))
    ensures Scanned(baseline, actual, regions, exceptions, thresholds, judged, report, diff)
  {
    hide Comparable, InsideImage, AllJudged, Reports, Shows, AllMarked;
  }

  /** One turn of the loop over the regions: the next one is judged, and its pixels are shown. */
  method CompareNext(baseline: Image, actual: Image, regions: seq<Region>, exceptions: map<string, string>,
      thresholds: Thresholds, i: nat, diff: array<Byte>, ghost judged: seq<RegionResult>, ghost report: Report)
    returns (verdict: RegionResult)
    requires Scanned(baseline, actual, regions, exceptions, thresholds, judged, report, diff[..])
    requires i == |judged| < |regions| && InsideImage(regions[i], baseline)
    modifies diff
    ensures Scanned(baseline, actual, regions, exceptions, thresholds, judged + [verdict],
                    Report(report.results + [Excuse(verdict, exceptions)], report.stale + Stale(verdict, exceptions)),
                    diff[..])
  {
    hide *;
    ScannedMeans(baseline, actual, regions, exceptions, thresholds, judged, report, diff[..]);
    ghost var shown := AllMarked(baseline, actual, regions, thresholds.channelDelta, i);
    verdict := CompareRegion(baseline, actual, regions[i], thresholds, diff, shown);
    NextJudged(baseline, actual, regions, thresholds, judged, verdict);
    NextReports(exceptions, report, judged, verdict);
    NextMarked(baseline, actual, regions, thresholds.channelDelta, i);
    ghost var next := Report(report.results + [Excuse(verdict, exceptions)], report.stale + Stale(verdict, exceptions));
    NextScanned(baseline, actual, regions, exceptions, thresholds, judged + [verdict], next, diff[..]);
  }

  method Compare(baseline: Image, actual: Image, regions: seq<Region>, exceptions: map<string, string>,
      thresholds: Thresholds)
    returns (result: Result<Report, CompareError>, diff: array<Byte>, judged: seq<RegionResult>)
    requires baseline.Valid() && actual.Valid()
    ensures result.Ok? <==>
            Comparable(baseline, actual) && forall i :: 0 <= i < |regions| ==> InsideImage(regions[i], baseline)
    ensures result.Err? ==> match result.error
              case SizesDiffer => !Comparable(baseline, actual)
              case OutsideImage(name) =>
                exists i :: 0 <= i < |regions| && regions[i].name == name && !InsideImage(regions[i], baseline)
    ensures result.Ok? ==>
              && |judged| == |regions| && AllJudged(baseline, actual, regions, thresholds, judged)
              && Reports(result.value, judged, exceptions)
              && Shows(diff[..], baseline, AllMarked(baseline, actual, regions, thresholds.channelDelta, |regions|))
  {
    SizesCompare(baseline, actual);
    hide *;
    judged := [];
    diff := new Byte[|baseline.pixels|](i requires 0 <= i < |baseline.pixels| => baseline.pixels[i]);
    if baseline.width != actual.width || baseline.height != actual.height {
      return Err(SizesDiffer), diff, judged;
    }
    var results: seq<RegionResult>, stale: seq<string> := [], [];
    StartScan(baseline, actual, regions, exceptions, thresholds, diff[..]);
    var i := 0;
    while i < |regions|
      invariant i == |judged| <= |regions| && fresh(diff)
      invariant forall k :: 0 <= k < i ==> InsideImage(regions[k], baseline)
      invariant Scanned(baseline, actual, regions, exceptions, thresholds, judged, Report(results, stale), diff[..])
    {
      var region := regions[i];
      if !InsideImage(region, baseline) {
        return Err(OutsideImage(region.name)), diff, judged;
      }
      var verdict := CompareNext(baseline, actual, regions, exceptions, thresholds, i, diff, judged,
                                 Report(results, stale));
      judged, results := judged + [verdict], results + [Excuse(verdict, exceptions)];
      stale := stale + Stale(verdict, exceptions);
      i := i + 1;
    }
    ScannedMeans(baseline, actual, regions, exceptions, thresholds, judged, Report(results, stale), diff[..]);
    return Ok(Report(results, stale)), diff, judged;
  }

  lemma SizesCompare(baseline: Image, actual: Image)
    requires baseline.Valid() && actual.Valid()
    ensures Comparable(baseline, actual) <==> baseline.width == actual.width && baseline.height == actual.height
  {
  }

  lemma BlankShows(baseline: Image, diff: seq<Byte>)
    requires baseline.Valid() && diff == baseline.pixels
    ensures Shows(diff, baseline, {})
  {
    forall x: nat, y: nat {:trigger Offset(baseline.width, x, y)} | x < baseline.width && y < baseline.height
      ensures PixelIs(diff, Offset(baseline.width, x, y), Rgb(baseline, (x, y)))
    {
      OffsetInside(baseline.width, baseline.height, x, y);
    }
  }

  lemma StartReport(baseline: Image, actual: Image, regions: seq<Region>, exceptions: map<string, string>,
      thresholds: Thresholds)
    requires baseline.Valid() && actual.Valid() && baseline.width == actual.width && baseline.height == actual.height
    ensures Comparable(baseline, actual) && AllJudged(baseline, actual, regions, thresholds, [])
    ensures Reports(Report([], []), [], exceptions)
    ensures AllMarked(baseline, actual, regions, thresholds.channelDelta, 0) == {}
  {
  }

  lemma NextJudged(baseline: Image, actual: Image, regions: seq<Region>, thresholds: Thresholds,
      judged: seq<RegionResult>, verdict: RegionResult)
    requires Comparable(baseline, actual) && |judged| < |regions|
    requires AllJudged(baseline, actual, regions, thresholds, judged) && InsideImage(regions[|judged|], baseline)
    requires verdict == Judge(regions[|judged|],
        |Marked(baseline, actual, regions[|judged|], thresholds.channelDelta)|, verdict.maxDelta, thresholds)
    requires IsMaxDelta(baseline, actual, regions[|judged|], 0, regions[|judged|].y + regions[|judged|].height,
        verdict.maxDelta)
    ensures AllJudged(baseline, actual, regions, thresholds, judged + [verdict])
  {
    assert Judged(baseline, actual, regions[|judged|], thresholds, verdict);
    hide Judged;
  }

  lemma NextReports(exceptions: map<string, string>, report: Report, judged: seq<RegionResult>, verdict: RegionResult)
    requires Reports(report, judged, exceptions)
    ensures Reports(
              Report(report.results + [Excuse(verdict, exceptions)], report.stale + Stale(verdict, exceptions)),
              judged + [verdict], exceptions)
  {
    hide Excuse, Stale;
    StaleNamesPrefix(judged, [verdict], exceptions, |judged|);
  }

  lemma NextMarked(baseline: Image, actual: Image, regions: seq<Region>, threshold: int, n: nat)
    requires Comparable(baseline, actual) && n < |regions|
    requires forall k :: 0 <= k < n + 1 ==> InsideImage(regions[k], baseline)
    ensures AllMarked(baseline, actual, regions, threshold, n + 1)
            == AllMarked(baseline, actual, regions, threshold, n) + Marked(baseline, actual, regions[n], threshold)
  {
    hide Marked;
  }

  lemma {:induction false} StaleNamesPrefix(judged: seq<RegionResult>, more: seq<RegionResult>,
      exceptions: map<string, string>, n: nat)
    requires n <= |judged|
    ensures StaleNames(judged + more, exceptions, n) == StaleNames(judged, exceptions, n)
  {
    if n > 0 { StaleNamesPrefix(judged, more, exceptions, n - 1); }
  }
}

/**
  Whole PNG images (`to_rgb` and `write_png` in scripts/ui_visual_diff.py): the scanlines of any supported
  pixel format brought to 8-bit RGB, and RGB pixels written as scanlines.
 */
module PngImage {
  import opened Wrappers
  import opened Png

  /** Where the sample of channel `c` of pixel `x` starts in a row. */
  function SampleAt(x: nat, c: nat, channels: nat, sampleBytes: nat): nat {
    (x * channels + c) * sampleBytes
  }

  predicate Format(row: seq<Byte>, width: nat, channels: nat, sampleBytes: nat) {
    1 <= channels <= 4 && 1 <= sampleBytes <= 2 && |row| == SampleAt(width, 0, channels, sampleBytes)
  }

  lemma SampleInRow(row: seq<Byte>, x: nat, c: nat, width: nat, channels: nat, sampleBytes: nat)
    requires Format(row, width, channels, sampleBytes) && x < width && c < channels
    ensures SampleAt(x, c, channels, sampleBytes) < |row|
  {
    var left := width - x - 1;
    assert width * channels == (x + 1 + left) * channels == x * channels + channels + left * channels;
    assert width * channels > x * channels + c;
    if sampleBytes == 2 { assert (x * channels + c) * 2 < width * channels * 2; }
  }

  /** The first byte of each pixel's sample of channel `c`: the whole sample, or its high byte. */
  function Channel(row: seq<Byte>, c: nat, width: nat, channels: nat, sampleBytes: nat): (samples: seq<Byte>)
    requires Format(row, width, channels, sampleBytes) && c < channels
    ensures |samples| == width
  {
    seq(width, x requires 0 <= x < width =>
      SampleInRow(row, x, c, width, channels, sampleBytes);
      row[SampleAt(x, c, channels, sampleBytes)])
  }

  /** Gray is the same in all three colours; alpha is left out. */
  function SourceChannel(c: nat, channels: nat): nat {
    if channels >= 3 then c else 0
  }

  function RowRgb(row: seq<Byte>, width: nat, channels: nat, sampleBytes: nat): (rgb: seq<Byte>)
    requires Format(row, width, channels, sampleBytes)
    ensures |rgb| == 3 * width
  {
    seq(3 * width, i requires 0 <= i < 3 * width =>
      Channel(row, SourceChannel(i % 3, channels), width, channels, sampleBytes)[i / 3])
  }

  /**
    Every format that is read, gray or coloured, with alpha or without, of 8 bits or 16: each colour of a pixel by
    the bytes of its row.
   */
  lemma ColourOfPixel(row: seq<Byte>, x: nat, c: nat, width: nat, channels: nat, sampleBytes: nat)
    requires channels in {1, 2, 3, 4} && sampleBytes in {1, 2} && x < width && c < 3
    requires |row| == width * channels * sampleBytes
    ensures Format(row, width, channels, sampleBytes)
    ensures var at := (x * channels + (if channels <= 2 then 0 else c)) * sampleBytes;
            at < |row| && RowRgb(row, width, channels, sampleBytes)[3 * x + c] == row[at]
  {
    FormatIs(row, width, channels, sampleBytes);
    SampleOfPixel(row, x, if channels <= 2 then 0 else c, width, channels, sampleBytes);
    ColourAt(row, x, c, width, channels, sampleBytes);
    hide Format, SampleAt, Channel, RowRgb;
  }

  lemma FormatIs(row: seq<Byte>, width: nat, channels: nat, sampleBytes: nat)
    ensures Format(row, width, channels, sampleBytes)
        <==> channels in {1, 2, 3, 4} && sampleBytes in {1, 2} && |row| == width * channels * sampleBytes
  {
  }

  lemma SampleOfPixel(row: seq<Byte>, x: nat, c: nat, width: nat, channels: nat, sampleBytes: nat)
    requires Format(row, width, channels, sampleBytes) && x < width && c < channels
    ensures var at := (x * channels + c) * sampleBytes;
            at < |row| && Channel(row, c, width, channels, sampleBytes)[x] == row[at]
  {
    SampleInRow(row, x, c, width, channels, sampleBytes);
    hide Format;
  }

  lemma ColourAt(row: seq<Byte>, x: nat, c: nat, width: nat, channels: nat, sampleBytes: nat)
    requires Format(row, width, channels, sampleBytes) && x < width && c < 3
    ensures RowRgb(row, width, channels, sampleBytes)[3 * x + c]
         == Channel(row, if channels <= 2 then 0 else c, width, channels, sampleBytes)[x]
  {
    assert (3 * x + c) % 3 == c && (3 * x + c) / 3 == x;
    hide SampleAt, Channel;
  }

  predicate AllFormat(rows: seq<seq<Byte>>, width: nat, channels: nat, sampleBytes: nat) {
    forall y :: 0 <= y < |rows| ==> Format(rows[y], width, channels, sampleBytes)
  }

  /** Where row `y` of `width` RGB pixels starts. */
  function RowStart(y: nat, width: nat): nat {
    if y == 0 then 0 else RowStart(y - 1, width) + 3 * width
  }

  function Rgb(rows: seq<seq<Byte>>, width: nat, channels: nat, sampleBytes: nat): (pixels: seq<Byte>)
    requires AllFormat(rows, width, channels, sampleBytes)
    ensures |pixels| == RowStart(|rows|, width)
  {
    if rows == [] then []
    else
      Rgb(rows[..|rows| - 1], width, channels, sampleBytes)
      + RowRgb(rows[|rows| - 1], width, channels, sampleBytes)
  }

  /** Slice assignment with a step of three. */
  method AssignEveryThird(pixels: array<Byte>, start: nat, values: seq<Byte>)
    requires start + 3 * |values| <= pixels.Length + 2
    modifies pixels
    ensures forall x :: 0 <= x < |values| ==> pixels[start + 3 * x] == values[x]
    ensures forall i :: 0 <= i < pixels.Length && (i < start || (i - start) % 3 != 0 || start + 3 * |values| <= i) ==>
              pixels[i] == old(pixels[i])
  {
    for x := 0 to |values|
      invariant forall k :: 0 <= k < x ==> pixels[start + 3 * k] == values[k]
      invariant forall i :: 0 <= i < pixels.Length && (i < start || (i - start) % 3 != 0 || start + 3 * x <= i) ==>
                  pixels[i] == old(pixels[i])
    {
      pixels[start + 3 * x] := values[x];
    }
  }

  lemma RowStartsGrow(y: nat, height: nat, width: nat)
    requires y < height
    ensures RowStart(y, width) + 3 * width <= RowStart(height, width)
    decreases height
  {
    if y + 1 < height { RowStartsGrow(y, height - 1, width); }
  }

  /** One row of the image. */
  method PutRow(pixels: array<Byte>, target: nat, row: seq<Byte>, width: nat, channels: nat, sampleBytes: nat)
    requires Format(row, width, channels, sampleBytes) && target + 3 * width <= pixels.Length
    modifies pixels
    ensures pixels[target..target + 3 * width] == RowRgb(row, width, channels, sampleBytes)
    ensures pixels[..target] == old(pixels[..target])
  {
    var first := Channel(row, SourceChannel(0, channels), width, channels, sampleBytes);
    var second := Channel(row, SourceChannel(1, channels), width, channels, sampleBytes);
    var third := Channel(row, SourceChannel(2, channels), width, channels, sampleBytes);
    AssignEveryThird(pixels, target, first);
    AssignEveryThird(pixels, target + 1, second);
    AssignEveryThird(pixels, target + 2, third);
    var rgb := RowRgb(row, width, channels, sampleBytes);
    forall i | 0 <= i < 3 * width ensures pixels[target + i] == rgb[i] {
      var x, c := i / 3, i % 3;
      assert i == 3 * x + c;
      if c == 0 {
        assert pixels[target + 3 * x] == first[x];
      } else if c == 1 {
        assert pixels[target + 1 + 3 * x] == second[x];
      } else {
        assert pixels[target + 2 + 3 * x] == third[x];
      }
    }
  }

  method ToRgb(rows: seq<seq<Byte>>, width: nat, channels: nat, sampleBytes: nat) returns (pixels: array<Byte>)
    requires AllFormat(rows, width, channels, sampleBytes)
    ensures fresh(pixels) && pixels[..] == Rgb(rows, width, channels, sampleBytes)
  {
    pixels := new Byte[RowStart(|rows|, width)];
    for y := 0 to |rows|
      invariant RowStart(y, width) <= pixels.Length
      invariant pixels[..RowStart(y, width)] == Rgb(rows[..y], width, channels, sampleBytes)
    {
      RowStartsGrow(y, |rows|, width);
      assert rows[..y + 1][..y] == rows[..y];
      var target := RowStart(y, width);
      PutRow(pixels, target, rows[y], width, channels, sampleBytes);
      assert pixels[..target + 3 * width] == pixels[..target] + pixels[target..target + 3 * width];
    }
    assert rows[..|rows|] == rows;
  }

  /** Of a 16-bit sample only the high byte counts. */
  lemma LowBytesDoNotMatter(wide: seq<Byte>, narrow: seq<Byte>, width: nat, channels: nat)
    requires Format(wide, width, channels, 2) && Format(narrow, width, channels, 1)
    requires forall i :: 0 <= i < |narrow| ==> 2 * i < |wide| && wide[2 * i] == narrow[i]
    ensures RowRgb(wide, width, channels, 2) == RowRgb(narrow, width, channels, 1)
  {
    forall c | 0 <= c < channels
      ensures Channel(wide, c, width, channels, 2) == Channel(narrow, c, width, channels, 1)
    {
      forall x | 0 <= x < width
        ensures Channel(wide, c, width, channels, 2)[x] == Channel(narrow, c, width, channels, 1)[x]
      {
        SampleInRow(wide, x, c, width, channels, 2);
        SampleInRow(narrow, x, c, width, channels, 1);
        assert SampleAt(x, c, channels, 2) == 2 * SampleAt(x, c, channels, 1);
      }
    }
  }

  // ---- Writing and reading back ----

  function PixelRow(pixels: seq<Byte>, y: nat, width: nat, height: nat): (row: seq<Byte>)
    requires |pixels| == RowStart(height, width) && y < height
    ensures |row| == 3 * width
  {
    RowStartsGrow(y, height, width);
    pixels[RowStart(y, width)..RowStart(y, width) + 3 * width]
  }

  /** The rows of RGB pixels. */
  function RowsOf(pixels: seq<Byte>, width: nat, height: nat): (rows: seq<seq<Byte>>)
    requires |pixels| == RowStart(height, width)
    ensures |rows| == height && Full(rows, 3 * width)
  {
    seq(height, y requires 0 <= y < height => PixelRow(pixels, y, width, height))
  }

  function Zeros(n: nat): seq<nat> {
    seq(n, _ => 0)
  }

  /** The scanlines of an image, each behind filter byte 0. */
  method WriteRows(pixels: seq<Byte>, width: nat, height: nat) returns (raw: seq<Byte>)
    requires |pixels| == RowStart(height, width)
    ensures raw == Encode(Zeros(height), RowsOf(pixels, width, height), 3 * width, 3, height)
  {
    hide Encode, RowStart;
    raw := [];
    ghost var rows := RowsOf(pixels, width, height);
    NothingEncoded(rows, 3 * width);
    for y := 0 to height
      invariant raw == Encode(Zeros(height), rows, 3 * width, 3, y)
    {
      UnfilteredLine(rows, y, 3 * width);
      raw := raw + [0];
      var row := PixelRow(pixels, y, width, height);
      assert rows[y] == row;
      Associate(raw[..|raw| - 1], [0], row);
      raw := raw + row;
    }
  }

  lemma Associate(a: seq<Byte>, b: seq<Byte>, c: seq<Byte>)
    ensures a + (b + c) == a + b + c
  {
  }

  lemma NothingEncoded(rows: seq<seq<Byte>>, stride: nat)
    requires Full(rows, stride)
    ensures Encode(Zeros(|rows|), rows, stride, 3, 0) == []
  {
  }

  lemma UnfilteredLine(rows: seq<seq<Byte>>, y: nat, stride: nat)
    requires y < |rows| && Full(rows, stride)
    ensures Encode(Zeros(|rows|), rows, stride, 3, y + 1) == Encode(Zeros(|rows|), rows, stride, 3, y) + ([0] + rows[y])
  {
    assert FilterRow(0, rows[y], PreviousRow(rows, y, stride), 3) == rows[y];
  }

  lemma RgbOfRgb(row: seq<Byte>, width: nat)
    requires |row| == 3 * width
    ensures Format(row, width, 3, 1) && RowRgb(row, width, 3, 1) == row
  {
    forall i | 0 <= i < 3 * width ensures RowRgb(row, width, 3, 1)[i] == row[i] {
      assert SampleAt(i / 3, i % 3, 3, 1) == i;
    }
  }

  lemma {:induction false} RgbOfRows(pixels: seq<Byte>, width: nat, height: nat, n: nat)
    requires |pixels| == RowStart(height, width) && n <= height
    requires AllFormat(RowsOf(pixels, width, height), width, 3, 1)
    ensures RowStart(n, width) <= |pixels|
    ensures Rgb(RowsOf(pixels, width, height)[..n], width, 3, 1) == pixels[..RowStart(n, width)]
  {
    var rows := RowsOf(pixels, width, height);
    if n > 0 {
      RgbOfRows(pixels, width, height, n - 1);
      RowStartsGrow(n - 1, height, width);
      assert rows[..n][..n - 1] == rows[..n - 1];
      RgbOfRgb(rows[n - 1], width);
      Extend(pixels, RowStart(n - 1, width), RowStart(n, width));
    }
  }

  /** An image that is written can be read, and comes back pixel for pixel. */
  lemma ReadInvertsWrite(pixels: seq<Byte>, width: nat, height: nat, rows: seq<seq<Byte>>)
    requires |pixels| == RowStart(height, width) && |rows| == height
    requires AllUnfiltered(Encode(Zeros(height), RowsOf(pixels, width, height), 3 * width, 3, height), 3 * width, 3,
        rows)
    ensures AllFormat(rows, width, 3, 1) && Rgb(rows, width, 3, 1) == pixels
  {
    hide AllUnfiltered, Encode, Rgb, RowsOf, Format;
    var original := RowsOf(pixels, width, height);
    var raw := Encode(Zeros(height), original, 3 * width, 3, height);
    assert raw + [] == raw;
    UnfilterInvertsEncode(Zeros(height), original, 3 * width, 3, [], rows, height);
    assert rows[..height] == rows && original[..height] == original;
    forall y | 0 <= y < height ensures Format(rows[y], width, 3, 1) {
      RgbOfRgb(rows[y], width);
    }
    RgbOfRows(pixels, width, height, height);
    assert pixels[..|pixels|] == pixels;
  }

  lemma WrittenIsReadable(pixels: seq<Byte>, width: nat, height: nat, y: nat)
    requires |pixels| == RowStart(height, width) && y < height
    ensures Readable(Encode(Zeros(height), RowsOf(pixels, width, height), 3 * width, 3, height), y, 3 * width, 3)
  {
    var raw := Encode(Zeros(height), RowsOf(pixels, width, height), 3 * width, 3, height);
    assert raw + [] == raw;
    EncodedIsReadable(Zeros(height), RowsOf(pixels, width, height), 3 * width, 3, [], y);
  }
}

/**
  PNG scanlines (`unfilter` and `paeth` in scripts/ui_visual_diff.py), against the filters of
  section 9 of the W3C PNG specification. Inflating, CRCs and chunk headers are not part of this model.
 */
module Png {
  import opened Wrappers

  type Byte = x: int | 0 <= x < 256

  datatype PngError = UnknownFilter(filter: Byte) | OutOfRange

  // ---- The filters, as the specification defines them for an encoder ----

  function Abs(x: int): nat {
    if x < 0 then -x else x
  }

  function Paeth(left: Byte, up: Byte, upperLeft: Byte): Byte {
    var estimate := left + up - upperLeft;
    var leftDistance := Abs(estimate - left);
    var upDistance := Abs(estimate - up);
    var upperLeftDistance := Abs(estimate - upperLeft);
    if leftDistance <= upDistance && leftDistance <= upperLeftDistance then left
    else if upDistance <= upperLeftDistance then up
    else upperLeft
  }

  /** The predictor is the nearest neighbour to the estimate; ties go to left, then up, then upper left. */
  lemma PaethIsNearest(left: Byte, up: Byte, upperLeft: Byte)
    ensures var p := Paeth(left, up, upperLeft);
            var distance := (x: int) => Abs(left + up - upperLeft - x);
            && p in [left, up, upperLeft]
            && (forall x :: x in [left, up, upperLeft] ==> distance(p) <= distance(x))
            && (distance(left) == distance(p) ==> p == left)
            && (distance(left) > distance(p) && distance(up) == distance(p) ==> p == up)
  {
  }

  function LeftOf(row: seq<Byte>, i: nat, pixelBytes: nat): Byte
    requires i < |row| && pixelBytes > 0
  {
    if i >= pixelBytes then row[i - pixelBytes] else 0
  }

  /** What filter `filter` predicts for byte `i` from the bytes around it. */
  function Predict(filter: nat, row: seq<Byte>, previous: seq<Byte>, i: nat, pixelBytes: nat): Byte
    requires filter <= 4 && i < |row| <= |previous| && pixelBytes > 0
  {
    match filter
    case 0 => 0
    case 1 => LeftOf(row, i, pixelBytes)
    case 2 => previous[i]
    case 3 => (LeftOf(row, i, pixelBytes) + previous[i]) / 2
    case _ => Paeth(LeftOf(row, i, pixelBytes), previous[i], LeftOf(previous, i, pixelBytes))
  }

  function FilterRow(filter: nat, row: seq<Byte>, previous: seq<Byte>, pixelBytes: nat): (encoded: seq<Byte>)
    requires filter <= 4 && |row| <= |previous| && pixelBytes > 0
    ensures |encoded| == |row|
  {
    seq(|row|, i requires 0 <= i < |row| => (row[i] - Predict(filter, row, previous, i, pixelBytes)) % 256)
  }

  /** The five filters, byte by byte: what is subtracted is what the specification names. */
  lemma FilterTypes(row: seq<Byte>, previous: seq<Byte>, i: nat, pixelBytes: nat)
    requires i < |row| <= |previous| && pixelBytes > 0
    ensures var left, upperLeft := if i < pixelBytes then 0 else row[i - pixelBytes],
                                   if i < pixelBytes then 0 else previous[i - pixelBytes];
            && FilterRow(0, row, previous, pixelBytes)[i] == row[i]
            && FilterRow(1, row, previous, pixelBytes)[i] == (row[i] as int - left) % 256
            && FilterRow(2, row, previous, pixelBytes)[i] == (row[i] as int - previous[i]) % 256
            && FilterRow(3, row, previous, pixelBytes)[i] == (row[i] as int - (left as int + previous[i]) / 2) % 256
            && FilterRow(4, row, previous, pixelBytes)[i] == (row[i] as int - Paeth(left, previous[i], upperLeft)) % 256
  {
    hide Paeth;
  }

  function PreviousRow(rows: seq<seq<Byte>>, y: nat, stride: nat): seq<Byte>
    requires y <= |rows|
  {
    if y == 0 then seq(stride, _ => 0) else rows[y - 1]
  }

  /** Every row has the full length, except that a truncated stream may leave the last one short. */
  predicate Shaped(rows: seq<seq<Byte>>, stride: nat) {
    && (forall y :: 0 <= y < |rows| ==> |rows[y]| <= stride)
    && (forall y :: 0 <= y < |rows| - 1 ==> |rows[y]| == stride)
  }

  predicate Full(rows: seq<seq<Byte>>, stride: nat) {
    forall y :: 0 <= y < |rows| ==> |rows[y]| == stride
  }

  /** The first `n` rows, each behind its filter byte. */
  function Encode(filters: seq<nat>, rows: seq<seq<Byte>>, stride: nat, pixelBytes: nat, n: nat): (raw: seq<Byte>)
    requires |filters| == |rows| && n <= |rows| && pixelBytes > 0 && Full(rows, stride)
    requires forall y :: 0 <= y < |rows| ==> filters[y] <= 4
    ensures |raw| == Start(n, stride)
    decreases n
  {
    if n == 0 then []
    else Encode(filters, rows, stride, pixelBytes, n - 1) + Line(filters[n - 1], rows, n - 1, stride, pixelBytes)
  }

  /** Row `y` behind its filter byte. */
  function Line(filter: nat, rows: seq<seq<Byte>>, y: nat, stride: nat, pixelBytes: nat): (line: seq<Byte>)
    requires filter <= 4 && y < |rows| && pixelBytes > 0 && Full(rows, stride)
    ensures |line| == stride + 1
  {
    [filter] + FilterRow(filter, rows[y], PreviousRow(rows, y, stride), pixelBytes)
  }

  /** Where the filter byte of row `y` stands. */
  function Start(y: nat, stride: nat): nat {
    if y == 0 then 0 else Start(y - 1, stride) + stride + 1
  }

  lemma StartIs(y: nat, stride: nat)
    ensures Start(y, stride) == y * (stride + 1)
  {
    if y > 0 {
      StartIs(y - 1, stride);
      assert y * (stride + 1) == (y - 1) * (stride + 1) + stride + 1;
    }
  }

  // ---- One row, decoded in place ----

  /** The first `n` bytes of `row` are decoded from `encoded`, the others are still encoded. */
  ghost predicate DecodedTo(filter: nat, encoded: seq<Byte>, previous: seq<Byte>, pixelBytes: nat, row: seq<Byte>,
      n: int)
    requires filter <= 4 && pixelBytes > 0
  {
    && |row| == |encoded| <= |previous|
    && (forall i :: 0 <= i < n && i < |row| ==>
          row[i] == (encoded[i] + Predict(filter, row, previous, i, pixelBytes)) % 256)
    && (forall i :: n <= i < |row| && 0 <= i ==> row[i] == encoded[i])
  }

  lemma DecodeNext(filter: nat, encoded: seq<Byte>, previous: seq<Byte>, pixelBytes: nat, row: seq<Byte>, n: nat,
      b: Byte)
    requires filter <= 4 && pixelBytes > 0 && DecodedTo(filter, encoded, previous, pixelBytes, row, n)
    requires n < |row| && b == (row[n] + Predict(filter, row, previous, n, pixelBytes)) % 256
    ensures DecodedTo(filter, encoded, previous, pixelBytes, row[n := b], n + 1)
  {
    var next := row[n := b];
    forall i | 0 <= i <= n
      ensures Predict(filter, next, previous, i, pixelBytes) == Predict(filter, row, previous, i, pixelBytes)
    {
    }
  }

  lemma ModInverse(a: Byte, b: Byte, p: Byte)
    ensures a == (b + p) % 256 <==> b == (a - p) % 256
  {
  }

  /** A fully decoded row is exactly the row whose filtered form was given. */
  lemma DecodedInverts(filter: nat, encoded: seq<Byte>, previous: seq<Byte>, pixelBytes: nat, row: seq<Byte>)
    requires filter <= 4 && pixelBytes > 0 && |row| == |encoded| <= |previous|
    ensures DecodedTo(filter, encoded, previous, pixelBytes, row, |row|) <==>
            FilterRow(filter, row, previous, pixelBytes) == encoded
  {
    var filtered := FilterRow(filter, row, previous, pixelBytes);
    forall i | 0 <= i < |row|
      ensures row[i] == (encoded[i] + Predict(filter, row, previous, i, pixelBytes)) % 256
          <==> filtered[i] == encoded[i]
    {
      ModInverse(row[i], encoded[i], Predict(filter, row, previous, i, pixelBytes));
    }
    if DecodedTo(filter, encoded, previous, pixelBytes, row, |row|) {
      forall i | 0 <= i < |row| ensures filtered[i] == encoded[i] {}
    }
  }

  /** Filtering loses nothing: over the same previous row, equal encodings come from equal rows. */
  lemma {:induction false} FilterRowInjective(filter: nat, a: seq<Byte>, b: seq<Byte>, previous: seq<Byte>,
      pixelBytes: nat, n: nat)
    requires filter <= 4 && pixelBytes > 0 && |a| == |b| <= |previous| && n <= |a|
    requires FilterRow(filter, a, previous, pixelBytes) == FilterRow(filter, b, previous, pixelBytes)
    ensures a[..n] == b[..n]
  {
    if n > 0 {
      FilterRowInjective(filter, a, b, previous, pixelBytes, n - 1);
      var i := n - 1;
      assert forall k :: 0 <= k < i ==> a[k] == a[..i][k] == b[k];
      assert Predict(filter, a, previous, i, pixelBytes) == Predict(filter, b, previous, i, pixelBytes);
      assert FilterRow(filter, a, previous, pixelBytes)[i] == FilterRow(filter, b, previous, pixelBytes)[i];
      ModInverse(a[i], FilterRow(filter, a, previous, pixelBytes)[i], Predict(filter, a, previous, i, pixelBytes));
      ModInverse(b[i], FilterRow(filter, a, previous, pixelBytes)[i], Predict(filter, a, previous, i, pixelBytes));
      assert a[..n] == a[..i] + [a[i]] && b[..n] == b[..i] + [b[i]];
    }
  }

  method AddLeft(row: array<Byte>, ghost encoded: seq<Byte>, previous: seq<Byte>, pixelBytes: nat)
    requires pixelBytes > 0 && row[..] == encoded && |encoded| <= |previous|
    modifies row
    ensures DecodedTo(1, encoded, previous, pixelBytes, row[..], row.Length)
  {
    var i := pixelBytes;
    while i < row.Length
      invariant i >= pixelBytes && (i <= row.Length || i == pixelBytes)
      invariant DecodedTo(1, encoded, previous, pixelBytes, row[..], i)
    {
      var left: int := row[i - pixelBytes];
      var sum := left + row[i];
      DecodeNext(1, encoded, previous, pixelBytes, row[..], i, sum % 256);
      row[i] := sum % 256;
      i := i + 1;
    }
  }

  method AddPredicted(filter: Byte, row: array<Byte>, ghost encoded: seq<Byte>, previous: seq<Byte>, pixelBytes: nat)
    requires 2 <= filter <= 4 && pixelBytes > 0 && row[..] == encoded && |encoded| <= |previous|
    modifies row
    ensures DecodedTo(filter, encoded, previous, pixelBytes, row[..], row.Length)
  {
    hide Paeth;
    for i := 0 to row.Length
      invariant DecodedTo(filter, encoded, previous, pixelBytes, row[..], i)
    {
      var left := if i >= pixelBytes then row[i - pixelBytes] else 0;
      var upperLeft := if i >= pixelBytes then previous[i - pixelBytes] else 0;
      var prediction :=
        if filter == 2 then previous[i]
        else if filter == 3 then (left + previous[i]) / 2
        else Paeth(left, previous[i], upperLeft);
      var sum: int := row[i] + prediction;
      DecodeNext(filter, encoded, previous, pixelBytes, row[..], i, sum % 256);
      row[i] := sum % 256;
    }
  }

  /**
    The branches of the source's loop body. Indexing past a truncated row is an error there, which is
    reported here before the row is touched.
   */
  method UnfilterRow(filter: Byte, row: array<Byte>, previous: seq<Byte>, stride: nat, pixelBytes: nat)
      returns (result: Result<(), PngError>)
    requires pixelBytes > 0 && row.Length <= stride == |previous|
    modifies row
    ensures result.Ok? <==> RowDecodes(filter, row.Length, stride, pixelBytes)
    ensures result.Ok? ==> FilterRow(filter, row[..], previous, pixelBytes) == old(row[..])
    ensures result.Err? ==> result.error == if filter > 4 then UnknownFilter(filter) else OutOfRange
  {
    hide FilterRow, Predict, Paeth;
    ghost var encoded := row[..];
    if filter > 4 {
      return Err(UnknownFilter(filter));
    }
    if !RowDecodes(filter, row.Length, stride, pixelBytes) {
      return Err(OutOfRange);
    }
    if filter == 1 {
      AddLeft(row, encoded, previous, pixelBytes);
    } else if filter > 1 {
      AddPredicted(filter, row, encoded, previous, pixelBytes);
    } else {
      CopyDecodes(encoded, previous, pixelBytes);
    }
    DecodedInverts(filter, encoded, previous, pixelBytes, row[..]);
    return Ok(());
  }

  lemma CopyDecodes(encoded: seq<Byte>, previous: seq<Byte>, pixelBytes: nat)
    requires pixelBytes > 0 && |encoded| <= |previous|
    ensures DecodedTo(0, encoded, previous, pixelBytes, encoded, |encoded|)
  {
  }

  /** Filter 0 never indexes the row, and filter 1 does not when a row is one pixel at most. */
  predicate RowDecodes(filter: Byte, length: nat, stride: nat, pixelBytes: nat) {
    filter <= 4 && (length >= stride || filter == 0 || (filter == 1 && stride <= pixelBytes))
  }

  // ---- The whole image ----

  function RowBytes(raw: seq<Byte>, y: nat, stride: nat): (bytes: seq<Byte>)
    requires Start(y, stride) < |raw|
    ensures |bytes| <= stride
  {
    var first := Start(y, stride) + 1;
    if first + stride <= |raw| then raw[first..first + stride] else raw[first..]
  }

  predicate Readable(raw: seq<Byte>, y: nat, stride: nat, pixelBytes: nat) {
    && Start(y, stride) < |raw|
    && RowDecodes(raw[Start(y, stride)], |RowBytes(raw, y, stride)|, stride, pixelBytes)
  }

  /** `rows[y]` is the row whose filtered form stands in `raw`. */
  ghost predicate Unfiltered(raw: seq<Byte>, stride: nat, pixelBytes: nat, rows: seq<seq<Byte>>, y: nat)
    requires pixelBytes > 0 && y < |rows| && Shaped(rows, stride)
  {
    && Readable(raw, y, stride, pixelBytes)
    && |rows[y]| == |RowBytes(raw, y, stride)|
    && FilterRow(raw[Start(y, stride)], rows[y], PreviousRow(rows, y, stride), pixelBytes) == RowBytes(raw, y, stride)
  }

  predicate FirstUnreadable(raw: seq<Byte>, y: nat, stride: nat, pixelBytes: nat) {
    !Readable(raw, y, stride, pixelBytes) && forall z :: 0 <= z < y ==> Readable(raw, z, stride, pixelBytes)
  }

  function RowError(raw: seq<Byte>, y: nat, stride: nat): PngError {
    if Start(y, stride) < |raw| && raw[Start(y, stride)] > 4 then UnknownFilter(raw[Start(y, stride)]) else OutOfRange
  }

  lemma StartsGrow(y: nat, z: nat, stride: nat)
    requires y < z
    ensures Start(y, stride) + stride + 1 <= Start(z, stride)
    decreases z
  {
    if y + 1 < z { StartsGrow(y, z - 1, stride); }
  }

  /** Decoding stops with `error` at the first row that cannot be read. */
  ghost predicate FailsWith(raw: seq<Byte>, height: nat, stride: nat, pixelBytes: nat, error: PngError) {
    exists y :: 0 <= y < height && FirstUnreadable(raw, y, stride, pixelBytes) && error == RowError(raw, y, stride)
  }

  ghost predicate AllUnfiltered(raw: seq<Byte>, stride: nat, pixelBytes: nat, rows: seq<seq<Byte>>)
    requires pixelBytes > 0
  {
    Shaped(rows, stride) && forall y :: 0 <= y < |rows| ==> Unfiltered(raw, stride, pixelBytes, rows, y)
  }

  lemma AddRow(raw: seq<Byte>, stride: nat, pixelBytes: nat, rows: seq<seq<Byte>>, row: seq<Byte>)
    requires pixelBytes > 0 && AllUnfiltered(raw, stride, pixelBytes, rows)
    requires Full(rows, stride) && Readable(raw, |rows|, stride, pixelBytes)
    requires |row| == |RowBytes(raw, |rows|, stride)|
    requires FilterRow(raw[Start(|rows|, stride)], row, PreviousRow(rows, |rows|, stride), pixelBytes)
        == RowBytes(raw, |rows|, stride)
    ensures AllUnfiltered(raw, stride, pixelBytes, rows + [row])
  {
    var longer := rows + [row];
    forall y | 0 <= y <= |rows| ensures Unfiltered(raw, stride, pixelBytes, longer, y) {
      assert PreviousRow(longer, y, stride) == PreviousRow(rows, y, stride);
      if y < |rows| { assert Unfiltered(raw, stride, pixelBytes, rows, y); }
    }
  }

  /** Once the stream reaches the filter byte of row `|rows|`, the rows before it are complete. */
  lemma RowsBeforeAreFull(raw: seq<Byte>, stride: nat, pixelBytes: nat, rows: seq<seq<Byte>>)
    requires pixelBytes > 0 && AllUnfiltered(raw, stride, pixelBytes, rows) && Start(|rows|, stride) <= |raw|
    ensures Full(rows, stride)
    ensures forall y :: 0 <= y < |rows| ==> Start(y, stride) + stride < |raw| && raw[Start(y, stride)] <= 4
  {
    forall y | 0 <= y < |rows|
      ensures |rows[y]| == stride && Start(y, stride) + stride < |raw| && raw[Start(y, stride)] <= 4
    {
      StartsGrow(y, |rows|, stride);
      assert Unfiltered(raw, stride, pixelBytes, rows, y);
    }
  }

  method Unfilter(raw: seq<Byte>, width: nat, height: nat, pixelBytes: nat)
      returns (result: Result<seq<seq<Byte>>, PngError>)
    requires pixelBytes > 0
    ensures result.Ok? <==> forall y :: 0 <= y < height ==> Readable(raw, y, width * pixelBytes, pixelBytes)
    ensures result.Ok? ==> |result.value| == height && AllUnfiltered(raw, width * pixelBytes, pixelBytes, result.value)
    ensures result.Err? ==> FailsWith(raw, height, width * pixelBytes, pixelBytes, result.error)
  {
    result := UnfilterRows(raw, width * pixelBytes, height, pixelBytes);
  }

  method UnfilterRows(raw: seq<Byte>, stride: nat, height: nat, pixelBytes: nat)
      returns (result: Result<seq<seq<Byte>>, PngError>)
    requires pixelBytes > 0
    ensures result.Ok? <==> forall y :: 0 <= y < height ==> Readable(raw, y, stride, pixelBytes)
    ensures result.Ok? ==> |result.value| == height && AllUnfiltered(raw, stride, pixelBytes, result.value)
    ensures result.Err? ==> FailsWith(raw, height, stride, pixelBytes, result.error)
  {
    hide FilterRow, Predict, Paeth;
    var previous: seq<Byte> := seq(stride, _ => 0);
    var rows: seq<seq<Byte>> := [];
    for y := 0 to height
      invariant |rows| == y && AllUnfiltered(raw, stride, pixelBytes, rows)
      invariant forall z :: 0 <= z < y ==> Readable(raw, z, stride, pixelBytes)
      invariant previous == PreviousRow(rows, y, stride)
    {
      var start := y * (stride + 1);
      StartIs(y, stride);
      if start >= |raw| {
        assert FirstUnreadable(raw, y, stride, pixelBytes);
        return Err(OutOfRange);
      }
      RowsBeforeAreFull(raw, stride, pixelBytes, rows);
      var bytes := RowBytes(raw, y, stride);
      var row := new Byte[|bytes|](i requires 0 <= i < |bytes| => bytes[i]);
      assert row[..] == bytes;
      var decoded := UnfilterRow(raw[start], row, previous, stride, pixelBytes);
      if decoded.Err? {
        assert FirstUnreadable(raw, y, stride, pixelBytes);
        return Err(decoded.error);
      }
      AddRow(raw, stride, pixelBytes, rows, row[..]);
      rows := rows + [row[..]];
      previous := row[..];
    }
    return Ok(rows);
  }

  lemma {:induction false} EncodedRow(filters: seq<nat>, rows: seq<seq<Byte>>, stride: nat, pixelBytes: nat, n: nat,
      y: nat)
    requires |filters| == |rows| && y < n <= |rows| && pixelBytes > 0 && Full(rows, stride)
    requires forall z :: 0 <= z < |rows| ==> filters[z] <= 4
    ensures var raw := Encode(filters, rows, stride, pixelBytes, n);
            && Start(y + 1, stride) <= |raw|
            && raw[Start(y, stride)..Start(y + 1, stride)] == Line(filters[y], rows, y, stride, pixelBytes)
    decreases n
  {
    hide FilterRow, Line;
    if y < n - 1 {
      EncodedRow(filters, rows, stride, pixelBytes, n - 1, y);
      PrefixSlice(Encode(filters, rows, stride, pixelBytes, n - 1),
        Line(filters[n - 1], rows, n - 1, stride, pixelBytes),
                  Start(y, stride), Start(y + 1, stride));
    }
  }

  lemma PrefixSlice(a: seq<Byte>, b: seq<Byte>, from: nat, to: nat)
    requires from <= to <= |a|
    ensures (a + b)[from..to] == a[from..to]
  {
  }

  /** Decoding an encoded image gives back exactly its rows, whatever filter each row chose. */
  lemma {:induction false} UnfilterInvertsEncode(
      filters: seq<nat>, original: seq<seq<Byte>>, stride: nat, pixelBytes: nat,
                                                 trailing: seq<Byte>, rows: seq<seq<Byte>>, n: nat)
    requires |filters| == |original| == |rows| && n <= |rows| && pixelBytes > 0 && Full(original, stride)
    requires forall y :: 0 <= y < |rows| ==> filters[y] <= 4
    requires AllUnfiltered(Encode(filters, original, stride, pixelBytes, |original|) + trailing, stride, pixelBytes,
        rows)
    ensures rows[..n] == original[..n]
    decreases n
  {
    hide FilterRow, Predict, Paeth;
    if n > 0 {
      var y := n - 1;
      UnfilterInvertsEncode(filters, original, stride, pixelBytes, trailing, rows, y);
      EncodedRow(filters, original, stride, pixelBytes, |original|, y);
      var encoded := Encode(filters, original, stride, pixelBytes, |original|);
      var raw := encoded + trailing;
      assert Unfiltered(raw, stride, pixelBytes, rows, y);
      var line := Line(filters[y], original, y, stride, pixelBytes);
      assert encoded[Start(y, stride)..Start(y + 1, stride)][0] == line[0];
      assert RowBytes(raw, y, stride) == encoded[Start(y, stride)..Start(y + 1, stride)][1..] == line[1..];
      assert PreviousRow(rows, y, stride) == PreviousRow(original, y, stride) by {
        if y > 0 { assert rows[y - 1] == rows[..y][y - 1] == original[..y][y - 1]; }
      }
      FilterRowInjective(filters[y], rows[y], original[y], PreviousRow(original, y, stride), pixelBytes, |original[y]|);
      assert rows[y] == rows[y][..|original[y]|] && original[y] == original[y][..|original[y]|];
      assert rows[..n] == rows[..y] + [rows[y]] && original[..n] == original[..y] + [original[y]];
    }
  }

  /** An encoded image is always readable. */
  lemma EncodedIsReadable(filters: seq<nat>, rows: seq<seq<Byte>>, stride: nat, pixelBytes: nat, trailing: seq<Byte>,
      y: nat)
    requires |filters| == |rows| && y < |rows| && pixelBytes > 0 && Full(rows, stride)
    requires forall z :: 0 <= z < |rows| ==> filters[z] <= 4
    ensures Readable(Encode(filters, rows, stride, pixelBytes, |rows|) + trailing, y, stride, pixelBytes)
  {
    EncodedRow(filters, rows, stride, pixelBytes, |rows|, y);
    var raw := Encode(filters, rows, stride, pixelBytes, |rows|);
    assert raw[Start(y, stride)] == raw[Start(y, stride)..Start(y + 1, stride)][0];
  }

  function FiltersOf(raw: seq<Byte>, stride: nat, height: nat): (filters: seq<nat>)
    requires forall y :: 0 <= y < height ==> Start(y, stride) < |raw|
    ensures |filters| == height
  {
    seq(height, y requires 0 <= y < height => raw[Start(y, stride)])
  }

  lemma LineWasRead(raw: seq<Byte>, stride: nat, pixelBytes: nat, rows: seq<seq<Byte>>, y: nat)
    requires pixelBytes > 0 && AllUnfiltered(raw, stride, pixelBytes, rows) && y < |rows| && Full(rows, stride)
    requires Start(y, stride) + stride < |raw| && raw[Start(y, stride)] <= 4
    ensures Line(raw[Start(y, stride)], rows, y, stride, pixelBytes)
        == raw[Start(y, stride)..Start(y, stride) + stride + 1]
  {
    hide FilterRow;
    assert Unfiltered(raw, stride, pixelBytes, rows, y);
    var start := Start(y, stride);
    assert raw[start..start + 1 + stride] == [raw[start]] + raw[start + 1..start + 1 + stride];
  }

  /** Row `y` stands encoded at its place in `raw`. */
  predicate StandsIn(raw: seq<Byte>, filter: nat, stride: nat, pixelBytes: nat, rows: seq<seq<Byte>>, y: nat)
    requires pixelBytes > 0 && y < |rows| && Full(rows, stride) && filter <= 4
  {
    && Start(y, stride) + stride < |raw|
    && raw[Start(y, stride)..Start(y, stride) + stride + 1] == Line(filter, rows, y, stride, pixelBytes)
  }

  lemma {:induction false} EncodePrefix(raw: seq<Byte>, filters: seq<nat>, stride: nat, pixelBytes: nat,
      rows: seq<seq<Byte>>, n: nat)
    requires pixelBytes > 0 && |filters| == |rows| && n <= |rows| && Full(rows, stride)
    requires forall y :: 0 <= y < |rows| ==> filters[y] <= 4
    requires forall y :: 0 <= y < |rows| ==> StandsIn(raw, filters[y], stride, pixelBytes, rows, y)
    ensures Start(n, stride) <= |raw| && Encode(filters, rows, stride, pixelBytes, n) == raw[..Start(n, stride)]
    decreases n
  {
    hide Line, Full;
    if n > 0 {
      EncodePrefix(raw, filters, stride, pixelBytes, rows, n - 1);
      assert StandsIn(raw, filters[n - 1], stride, pixelBytes, rows, n - 1);
      Extend(raw, Start(n - 1, stride), Start(n, stride));
    }
  }

  lemma Extend(raw: seq<Byte>, from: nat, to: nat)
    requires from <= to <= |raw|
    ensures raw[..to] == raw[..from] + raw[from..to]
  {
  }

  /** Encoding the decoded rows again with the same filters gives back the bytes that were read. */
  lemma EncodeInvertsUnfilter(raw: seq<Byte>, stride: nat, pixelBytes: nat, rows: seq<seq<Byte>>)
    requires pixelBytes > 0 && AllUnfiltered(raw, stride, pixelBytes, rows)
    requires Start(|rows|, stride) <= |raw|
    ensures Full(rows, stride)
    ensures forall y :: 0 <= y < |rows| ==> Start(y, stride) + stride < |raw| && raw[Start(y, stride)] <= 4
    ensures Encode(FiltersOf(raw, stride, |rows|), rows, stride, pixelBytes, |rows|) == raw[..Start(|rows|, stride)]
  {
    RowsBeforeAreFull(raw, stride, pixelBytes, rows);
    forall y | 0 <= y < |rows| ensures StandsIn(raw, raw[Start(y, stride)], stride, pixelBytes, rows, y) {
      LineWasRead(raw, stride, pixelBytes, rows, y);
    }
    EncodePrefix(raw, FiltersOf(raw, stride, |rows|), stride, pixelBytes, rows, |rows|);
  }
}

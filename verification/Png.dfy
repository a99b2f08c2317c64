/**
 `decode_png_rgba` of `tools/item_lab/server.py`: the chunk loop (section 3.2 of RFC 2083) and the row
 filters (section 6 of RFC 2083) of a non-interlaced 8-bit RGBA image.
 */
module Png {
  import opened Basics

  datatype Error =
    | NotPng | Truncated | CrcMismatch | BadHeader | NotRgba8 | BadSize
    | Incomplete | NotInflatable | WrongSize | BadFilter

  datatype Result<+T> = Ok(value: T) | Err(error: Error)

  // Row filters.

  function Abs(n: int): nat { if n < 0 then -n else n }

  function Paeth(left: byte, up: byte, upperLeft: byte): byte {
    var estimate := left + up - upperLeft;
    var leftDistance, upDistance, upperLeftDistance := Abs(estimate - left), Abs(estimate - up),
      Abs(estimate - upperLeft);
    if leftDistance <= upDistance && leftDistance <= upperLeftDistance then left
    else if upDistance <= upperLeftDistance then up
    else upperLeft
  }

  /** The predictor is the neighbour nearest to left + up - upperLeft; ties go to left, then to up. */
  lemma PaethIsNearest(left: byte, up: byte, upperLeft: byte)
    ensures var p, e := Paeth(left, up, upperLeft), left + up - upperLeft;
      && (p == left || p == up || p == upperLeft)
      && Abs(e - p) <= Abs(e - left) && Abs(e - p) <= Abs(e - up) && Abs(e - p) <= Abs(e - upperLeft)
      && (Abs(e - left) == Abs(e - p) ==> p == left)
      && (Abs(e - up) == Abs(e - p) && p != left ==> p == up)
  {
  }

  /** The byte four places to the left, one pixel, or zero in the first pixel. */
  function Back(row: Bytes, i: nat): byte
    requires i <= |row|
  {
    if i >= 4 then row[i - 4] else 0
  }

  function Predict(filter: nat, left: byte, up: byte, upperLeft: byte): byte
    requires filter <= 4
  {
    match filter
    case 0 => 0
    case 1 => left
    case 2 => up
    case 3 => (left + up) / 2
    case _ => Paeth(left, up, upperLeft)
  }

  /** What an encoder stores for a row: each byte minus its prediction from the original neighbours. */
  function FilterRow(filter: nat, row: Bytes, previous: Bytes): Bytes
    requires filter <= 4 && |row| == |previous|
  {
    seq(|row|, i requires 0 <= i < |row| =>
      (row[i] - Predict(filter, Back(row, i), previous[i], Back(previous, i))) % 256)
  }

  /** The first `n` bytes of the decoded row: each stored byte plus its prediction from decoded neighbours. */
  function Unfilter(filter: nat, scan: Bytes, previous: Bytes, n: nat): (row: Bytes)
    requires filter <= 4 && |scan| == |previous| && n <= |scan|
    ensures |row| == n
  {
    if n == 0 then []
    else
      var row := Unfilter(filter, scan, previous, n - 1);
      row + [(scan[n - 1] + Predict(filter, Back(row, n - 1), previous[n - 1], Back(previous, n - 1))) % 256]
  }

  lemma Wraps(b: int, p: int)
    requires 0 <= b < 256 && 0 <= p < 256
    ensures ((b - p) % 256 + p) % 256 == b && ((b + p) % 256 - p) % 256 == b
  {
    assert (b - p) % 256 == if b >= p then b - p else b - p + 256;
    assert (b + p) % 256 == if b + p < 256 then b + p else b + p - 256;
  }

  /** Decoding undoes filtering, byte for byte, whatever the filter and the row above. */
  lemma {:induction false} UnfilterInvertsFilter(filter: nat, row: Bytes, previous: Bytes, n: nat)
    requires filter <= 4 && |row| == |previous| && n <= |row|
    ensures Unfilter(filter, FilterRow(filter, row, previous), previous, n) == row[..n]
  {
    if n > 0 {
      UnfilterInvertsFilter(filter, row, previous, n - 1);
      var p: int := Predict(filter, Back(row, n - 1), previous[n - 1], Back(previous, n - 1));
      assert Back(row[..n - 1], n - 1) == Back(row, n - 1);
      Wraps(row[n - 1], p);
    }
  }

  /** Filtering undoes decoding too: a filter is a bijection on rows. */
  lemma FilterInvertsUnfilter(filter: nat, scan: Bytes, previous: Bytes)
    requires filter <= 4 && |scan| == |previous|
    ensures FilterRow(filter, Unfilter(filter, scan, previous, |scan|), previous) == scan
  {
    var row := Unfilter(filter, scan, previous, |scan|);
    forall i | 0 <= i < |scan| ensures FilterRow(filter, row, previous)[i] == scan[i] {
      UnfilteredAt(filter, scan, previous, i);
      Wraps(scan[i], Predict(filter, Back(row, i), previous[i], Back(previous, i)));
    }
  }

  lemma UnfilteredAt(filter: nat, scan: Bytes, previous: Bytes, i: nat)
    requires filter <= 4 && |scan| == |previous| && i < |scan|
    ensures var row := Unfilter(filter, scan, previous, |scan|);
      row[i] == (scan[i] + Predict(filter, Back(row, i), previous[i], Back(previous, i))) % 256
  {
    var row := Unfilter(filter, scan, previous, |scan|);
    UnfilterPrefix(filter, scan, previous, i, |scan|);
    UnfilterPrefix(filter, scan, previous, i + 1, |scan|);
    assert Back(row[..i], i) == Back(row, i);
    assert row[i] == row[..i + 1][i];
  }

  /**
   Section 6 of RFC 2083, byte by byte, with the rebuilt row itself on both sides: nothing is added; the byte one
   pixel to the left; the byte above; the floor of their mean; the nearest of left, above and above left to
   left + above - above left, where left goes before above and above before above left.
   */
  predicate RowByte(filter: nat, stored: byte, row: Bytes, previous: Bytes, i: nat)
    requires i < |row| == |previous|
  {
    var left, corner: int := if i >= 4 then row[i - 4] else 0, if i >= 4 then previous[i - 4] else 0;
    RebuiltAs(filter, stored, left, previous[i], corner, row[i])
  }

  predicate RebuiltAs(filter: nat, stored: int, left: int, up: int, corner: int, b: int) {
    match filter
    case 0 => b == stored
    case 1 => b == (stored + left) % 256
    case 2 => b == (stored + up) % 256
    case 3 => b == (stored + (left + up) / 2) % 256
    case 4 =>
      var toLeft, toUp, toCorner := Abs(up - corner), Abs(left - corner), Abs(left + up - 2 * corner);
      && (toLeft <= toUp && toLeft <= toCorner ==> b == (stored + left) % 256)
      && (toUp < toLeft && toUp <= toCorner ==> b == (stored + up) % 256)
      && (toCorner < toLeft && toCorner < toUp ==> b == (stored + corner) % 256)
    case _ => false
  }

  lemma PredictedAs(filter: nat, stored: byte, left: byte, up: byte, corner: byte)
    requires filter <= 4
    ensures RebuiltAs(filter, stored, left, up, corner, (stored + Predict(filter, left, up, corner)) % 256)
  {
  }

  lemma RebuiltByte(filter: nat, scan: Bytes, previous: Bytes, i: nat)
    requires filter <= 4 && |scan| == |previous| && i < |scan|
    ensures RowByte(filter, scan[i], Unfilter(filter, scan, previous, |scan|), previous, i)
  {
    var row := Unfilter(filter, scan, previous, |scan|);
    UnfilteredAt(filter, scan, previous, i);
    PredictedAs(filter, scan[i], Back(row, i), previous[i], Back(previous, i));
  }

  lemma {:induction false} UnfilterPrefix(filter: nat, scan: Bytes, previous: Bytes, m: nat, n: nat)
    requires filter <= 4 && |scan| == |previous| && m <= n <= |scan|
    ensures Unfilter(filter, scan, previous, n)[..m] == Unfilter(filter, scan, previous, m)
  {
    if m < n { UnfilterPrefix(filter, scan, previous, m, n - 1); }
  }

  /** The four cases of the inner loop; filter 0 leaves the byte alone. */
  method RebuildByte(filter: nat, here: byte, left: byte, up: byte, upperLeft: byte) returns (b: byte)
    requires filter <= 4
    ensures b == (here + Predict(filter, left, up, upperLeft)) % 256
  {
    b := here;
    if filter == 1 {
      b := (here + left) % 256;
    } else if filter == 2 {
      b := (here + up) % 256;
    } else if filter == 3 {
      b := (here + (left + up) / 2) % 256;
    } else if filter == 4 {
      b := (here + Paeth(left, up, upperLeft)) % 256;
    }
  }

  /** The body of the inner loop: one byte rebuilt in place from its decoded neighbours. */
  method UnfilterByte(scan: array<byte>, index: nat, filter: nat, previous: Bytes)
    requires filter <= 4 && scan.Length == |previous| && index < scan.Length
    modifies scan
    ensures var left := if index >= 4 then old(scan[index - 4]) else 0;
      scan[..] == old(scan[..])[index :=
        (old(scan[index]) + Predict(filter, left, previous[index], Back(previous, index))) % 256]
  {
    var left: int := if index >= 4 then scan[index - 4] else 0;
    var upperLeft: int := if index >= 4 then previous[index - 4] else 0;
    scan[index] := RebuildByte(filter, scan[index], left, previous[index], upperLeft);
  }

  /** The inner loop of the decoder, which rebuilds one row in place. */
  method UnfilterInPlace(scan: array<byte>, filter: nat, previous: Bytes)
    requires filter <= 4 && scan.Length == |previous|
    modifies scan
    ensures scan[..] == Unfilter(filter, old(scan[..]), previous, |previous|)
    ensures forall i :: 0 <= i < scan.Length ==> RowByte(filter, old(scan[i]), scan[..], previous, i)
  {
    ghost var stored := scan[..];
    var index := 0;
    while index < scan.Length
      invariant index <= scan.Length
      invariant Rebuilding(filter, stored, previous, scan[..], index)
    {
      ghost var before := scan[..];
      UnfilterByte(scan, index, filter, previous);
      RebuiltNext(filter, stored, previous, before, scan[..], index);
      index := index + 1;
    }
    assert scan[..] == scan[..index];
    forall i | 0 <= i < scan.Length ensures RowByte(filter, stored[i], scan[..], previous, i) {
      RebuiltByte(filter, stored, previous, i);
    }
  }

  /** The first `index` bytes are decoded and the rest are as they were stored. */
  ghost predicate Rebuilding(filter: nat, stored: Bytes, previous: Bytes, now: Bytes, index: nat)
    requires filter <= 4 && |stored| == |previous| == |now| && index <= |stored|
  {
    now[..index] == Unfilter(filter, stored, previous, index) && now[index..] == stored[index..]
  }

  lemma RebuiltNext(filter: nat, stored: Bytes, previous: Bytes, before: Bytes, after: Bytes, index: nat)
    requires filter <= 4 && |stored| == |previous| == |before| == |after| && index < |stored|
    requires Rebuilding(filter, stored, previous, before, index)
    requires var left := if index >= 4 then before[index - 4] else 0;
      after == before[index := (before[index] + Predict(filter, left, previous[index], Back(previous, index))) % 256]
    ensures Rebuilding(filter, stored, previous, after, index + 1)
  {
    var done := Unfilter(filter, stored, previous, index);
    assert before[index] == before[index..][0] == stored[index];
    assert index >= 4 ==> before[index - 4] == before[..index][index - 4] == done[index - 4];
    assert after[..index + 1] == before[..index] + [after[index]];
    assert after[index + 1..] == before[index..][1..] == stored[index..][1..];
  }

  // Rows.

  function Zeros(n: nat): Bytes { seq(n, _ => 0) }

  /** The first `count` rows stored at the front of `raw`, given the decoded row above them. */
  function Rows(raw: Bytes, stride: nat, count: nat, previous: Bytes): (r: Result<seq<Bytes>>)
    requires |raw| == (stride + 1) * count && |previous| == stride
    decreases count
  {
    if count == 0 then Ok([])
    else
      OneRowLess(stride, count);
      if raw[0] > 4 then Err(BadFilter)
      else
        var row := Unfilter(raw[0], raw[1..stride + 1], previous, stride);
        var rest := Rows(raw[stride + 1..], stride, count - 1, row);
        if rest.Err? then rest else Ok([row] + rest.value)
  }

  lemma OneRowLess(stride: nat, count: nat)
    requires count > 0
    ensures (stride + 1) * count == (stride + 1) + (stride + 1) * (count - 1)
    ensures (stride + 1) * (count - 1) >= 0
  {
  }

  /** The body of the row loop: copy the stored row and rebuild it. */
  method DecodeRow(raw: Bytes, start: nat, stride: nat, previous: Bytes) returns (row: Bytes)
    requires start + stride + 1 <= |raw| && raw[start] <= 4 && |previous| == stride
    ensures row == Unfilter(raw[start], raw[start + 1..start + 1 + stride], previous, stride)
  {
    var stored := raw[start + 1..start + 1 + stride];
    var scan := new byte[stride](i requires 0 <= i < stride => stored[i]);
    assert scan[..] == stored;
    UnfilterInPlace(scan, raw[start], previous);
    row := scan[..];
  }

  /** `whole` is what comes of the rows decoded so far and the `count` rows still stored from `start` on. */
  ghost predicate Continues(whole: Result<seq<Bytes>>, rows: seq<Bytes>, raw: Bytes, start: nat, stride: nat,
      count: nat, previous: Bytes) {
    && start <= |raw| && |raw[start..]| == (stride + 1) * count && |previous| == stride
    && var rest := Rows(raw[start..], stride, count, previous);
       whole == if rest.Err? then rest else Ok(rows + rest.value)
  }

  lemma ContinuesFirst(raw: Bytes, stride: nat, height: nat)
    requires |raw| == (stride + 1) * height
    ensures Continues(Rows(raw, stride, height, Zeros(stride)), [], raw, 0, stride, height, Zeros(stride))
  {
    var whole := Rows(raw, stride, height, Zeros(stride));
    assert whole.Ok? ==> [] + whole.value == whole.value;
    assert raw[0..] == raw;
  }

  lemma ContinuesRow(whole: Result<seq<Bytes>>, rows: seq<Bytes>, raw: Bytes, start: nat, stride: nat, count: nat,
      previous: Bytes)
    requires count > 0 && Continues(whole, rows, raw, start, stride, count, previous)
    ensures start + stride + 1 <= |raw|
    ensures raw[start] > 4 ==> whole == Err(BadFilter)
    ensures raw[start] <= 4 ==>
      var row := Unfilter(raw[start], raw[start + 1..start + 1 + stride], previous, stride);
      Continues(whole, rows + [row], raw, start + stride + 1, stride, count - 1, row)
  {
    var tail := raw[start..];
    OneRowLess(stride, count);
    assert tail[1..stride + 1] == raw[start + 1..start + 1 + stride];
    assert tail[stride + 1..] == raw[start + stride + 1..];
    if tail[0] <= 4 {
      var row := Unfilter(tail[0], tail[1..stride + 1], previous, stride);
      var rest := Rows(tail[stride + 1..], stride, count - 1, row);
      if rest.Ok? { assert rows + ([row] + rest.value) == (rows + [row]) + rest.value; }
    }
  }

  lemma ContinuesLast(whole: Result<seq<Bytes>>, rows: seq<Bytes>, raw: Bytes, start: nat, stride: nat, previous: Bytes)
    requires Continues(whole, rows, raw, start, stride, 0, previous)
    ensures whole == Ok(rows)
  {
    assert rows + [] == rows;
  }

  /** The row loop of the decoder; the original keeps only the latest row. */
  method DecodeRows(raw: Bytes, stride: nat, height: nat) returns (r: Result<seq<Bytes>>)
    requires |raw| == (stride + 1) * height
    ensures r == Rows(raw, stride, height, Zeros(stride))
  {
    var previous := Zeros(stride);
    var rows: seq<Bytes> := [];
    ghost var whole := Rows(raw, stride, height, Zeros(stride));
    ContinuesFirst(raw, stride, height);
    var row: nat, start: nat := 0, 0;
    while row < height
      invariant row <= height && |previous| == stride
      invariant Continues(whole, rows, raw, start, stride, height - row, previous)
    {
      ContinuesRow(whole, rows, raw, start, stride, height - row, previous);
      if raw[start] > 4 { return Err(BadFilter); }
      previous := DecodeRow(raw, start, stride, previous);
      rows := rows + [previous];
      row, start := row + 1, start + stride + 1;
    }
    ContinuesLast(whole, rows, raw, start, stride, previous);
    r := Ok(rows);
  }

  /** The filtered bytes of an image: per row a filter byte and the filtered row. */
  function Filtered(rows: seq<Bytes>, filters: seq<nat>, stride: nat, previous: Bytes): (raw: Bytes)
    requires |filters| == |rows| && |previous| == stride
    requires forall i :: 0 <= i < |rows| ==> |rows[i]| == stride && filters[i] <= 4
  {
    if rows == [] then []
    else [filters[0]] + FilterRow(filters[0], rows[0], previous) + Filtered(rows[1..], filters[1..], stride, rows[0])
  }

  lemma {:induction false} FilteredLength(rows: seq<Bytes>, filters: seq<nat>, stride: nat, previous: Bytes)
    requires |filters| == |rows| && |previous| == stride
    requires forall i :: 0 <= i < |rows| ==> |rows[i]| == stride && filters[i] <= 4
    ensures |Filtered(rows, filters, stride, previous)| == (stride + 1) * |rows|
  {
    if rows != [] {
      FilteredLength(rows[1..], filters[1..], stride, rows[0]);
      assert (stride + 1) * |rows| == (stride + 1) + (stride + 1) * (|rows| - 1);
    }
  }

  /** For every image and every choice of filters per row, the decoder gives back the original bytes. */
  lemma {:induction false} DecodingInvertsFiltering(rows: seq<Bytes>, filters: seq<nat>, stride: nat, previous: Bytes)
    requires |filters| == |rows| && |previous| == stride
    requires forall i :: 0 <= i < |rows| ==> |rows[i]| == stride && filters[i] <= 4
    ensures var raw := Filtered(rows, filters, stride, previous);
      |raw| == (stride + 1) * |rows| && Rows(raw, stride, |rows|, previous) == Ok(rows)
  {
    var raw := Filtered(rows, filters, stride, previous);
    FilteredLength(rows, filters, stride, previous);
    if rows != [] {
      var stored := FilterRow(filters[0], rows[0], previous);
      var rest := Filtered(rows[1..], filters[1..], stride, rows[0]);
      OneRowLess(stride, |rows|);
      assert raw[1..stride + 1] == stored && raw[stride + 1..] == rest;
      UnfilterInvertsFilter(filters[0], rows[0], previous, stride);
      assert rows[0][..stride] == rows[0];
      DecodingInvertsFiltering(rows[1..], filters[1..], stride, rows[0]);
      assert [rows[0]] + rows[1..] == rows;
    }
  }

  // Chunks.

  const SIGNATURE: Bytes := [137, 80, 78, 71, 13, 10, 26, 10]
  const IHDR: Bytes := [73, 72, 68, 82]
  const IDAT: Bytes := [73, 68, 65, 84]
  const IEND: Bytes := [73, 69, 78, 68]

  /** `int.from_bytes(b, "big")`, and its inverse on `size` bytes. */
  function Number(b: Bytes): nat {
    if b == [] then 0 else Number(b[..|b| - 1]) * 256 + b[|b| - 1]
  }

  function NumberBytes(n: nat, size: nat): (b: Bytes)
    ensures |b| == size
  {
    if size == 0 then [] else NumberBytes(n / 256, size - 1) + [n % 256]
  }

  /** The numbers that fit in `size` bytes. */
  function Limit(size: nat): nat {
    if size == 0 then 1 else 256 * Limit(size - 1)
  }

  const WORD: nat := Limit(4)

  lemma {:induction false} NumberRoundTrip(n: nat, size: nat)
    requires n < Limit(size)
    ensures Number(NumberBytes(n, size)) == n
  {
    if size > 0 {
      NumberRoundTrip(n / 256, size - 1);
      var b := NumberBytes(n, size);
      assert b[..size - 1] == NumberBytes(n / 256, size - 1);
    }
  }

  lemma {:induction false} BytesRoundTrip(b: Bytes)
    ensures NumberBytes(Number(b), |b|) == b && Number(b) < Limit(|b|)
  {
    if b != [] {
      var front, last: int := b[..|b| - 1], b[|b| - 1];
      BytesRoundTrip(front);
      var n := Number(front) * 256 + last;
      assert n / 256 == Number(front) && n % 256 == last;
    }
  }

  function Word(b: Bytes): nat
    requires |b| == 4
  {
    Number(b)
  }

  function WordBytes(n: nat): (b: Bytes)
    ensures |b| == 4
  {
    NumberBytes(n, 4)
  }

  /** What the chunk loop has gathered: the size from IHDR, the IDAT bodies in order, and whether IEND came. */
  datatype Scan = Scan(size: Option<(nat, nat)>, idat: seq<Bytes>, ended: bool)

  const NOTHING := Scan(None, [], false)

  /** One chunk whose CRC matched. */
  function Accept(st: Scan, kind: Bytes, body: Bytes): Result<Scan> {
    if kind == IHDR then
      if |body| != 13 || st.size.Some? then Err(BadHeader)
      else if body[8..13] != [8, 6, 0, 0, 0] then Err(NotRgba8)
      else
        var width, height := Word(body[..4]), Word(body[4..8]);
        if width < 1 || height < 1 then Err(BadSize) else Ok(st.(size := Some((width, height))))
    else if kind == IDAT then Ok(st.(idat := st.idat + [body]))
    else if kind == IEND then Ok(st.(ended := true))
    else Ok(st)
  }

  /** Section 3.2 of RFC 2083: length, type, data, CRC of type and data. */
  datatype Chunk = Chunk(kind: Bytes, body: Bytes)

  ghost predicate Proper(c: Chunk) { |c.kind| == 4 && |c.body| < WORD }

  /** The checksum is a parameter of the model. */
  type Checksum = f: Bytes -> nat | forall b :: f(b) < WORD witness (b => 0)

  function ChunkBytes(c: Chunk, crc: Checksum): Bytes
    requires Proper(c)
  {
    WordBytes(|c.body|) + c.kind + c.body + WordBytes(crc(c.kind + c.body))
  }

  function AllBytes(chunks: seq<Chunk>, crc: Checksum): Bytes
    requires forall i :: 0 <= i < |chunks| ==> Proper(chunks[i])
  {
    if chunks == [] then [] else ChunkBytes(chunks[0], crc) + AllBytes(chunks[1..], crc)
  }

  /** The chunks taken one after the other, up to the first error or IEND. */
  function Fold(st: Scan, chunks: seq<Chunk>): Result<Scan>
    decreases |chunks|
  {
    if chunks == [] || st.ended then Ok(st)
    else
      var next := Accept(st, chunks[0].kind, chunks[0].body);
      if next.Err? then next else Fold(next.value, chunks[1..])
  }

  /** The chunk loop from `position` on. */
  function Read(data: Bytes, position: nat, st: Scan, crc: Checksum): Result<Scan>
    requires position <= |data|
    decreases |data| - position
  {
    if position == |data| || st.ended then Ok(st)
    else if position + 8 > |data| then Err(Truncated)
    else
      var length := Word(data[position..position + 4]);
      var kind := data[position + 4..position + 8];
      var start := position + 8;
      if start + length + 4 > |data| then Err(Truncated)
      else
        var body := data[start..start + length];
        if Word(data[start + length..start + length + 4]) != crc(kind + body) then Err(CrcMismatch)
        else
          var next := Accept(st, kind, body);
          if next.Err? then next else Read(data, start + length + 4, next.value, crc)
  }

  /** The `while` loop over chunks: it ends on every input and stays inside the data. */
  method ReadChunks(data: Bytes, crc: Checksum) returns (r: Result<Scan>)
    requires |data| >= 8
    ensures r == Read(data, 8, NOTHING, crc)
  {
    var position := 8;
    var st := NOTHING;
    while position < |data| && !st.ended
      invariant 8 <= position <= |data|
      invariant Read(data, 8, NOTHING, crc) == Read(data, position, st, crc)
      decreases |data| - position
    {
      if position + 8 > |data| { return Err(Truncated); }
      var length := Word(data[position..position + 4]);
      var kind := data[position + 4..position + 8];
      var start := position + 8;
      if start + length + 4 > |data| { return Err(Truncated); }
      var body := data[start..start + length];
      var stored := Word(data[start + length..start + length + 4]);
      if stored != crc(kind + body) { return Err(CrcMismatch); }
      var next := Accept(st, kind, body);
      if next.Err? { return next; }
      st := next.value;
      position := start + length + 4;
    }
    r := Ok(st);
  }

  /** One round of the loop over a written chunk. */
  lemma ReadStep(data: Bytes, position: nat, st: Scan, c: Chunk, tail: Bytes, crc: Checksum)
    requires Proper(c) && !st.ended && position <= |data| && data[position..] == ChunkBytes(c, crc) + tail
    ensures var after, next := position + 12 + |c.body|, Accept(st, c.kind, c.body);
      && after <= |data| && data[after..] == tail
      && Read(data, position, st, crc) == if next.Err? then next else Read(data, after, next.value, crc)
  {
    ChunkLayout(data, position, c, tail, crc);
    ReadUnfolds(data, position, st, c, crc);
  }

  /** One round of the loop, given the four fields of the chunk. */
  lemma ReadUnfolds(data: Bytes, position: nat, st: Scan, c: Chunk, crc: Checksum)
    requires !st.ended && position + 12 + |c.body| <= |data|
    requires Word(data[position..position + 4]) == |c.body| && data[position + 4..position + 8] == c.kind
    requires data[position + 8..position + 8 + |c.body|] == c.body
    requires Word(data[position + 8 + |c.body|..position + 12 + |c.body|]) == crc(c.kind + c.body)
    ensures var next := Accept(st, c.kind, c.body);
      Read(data, position, st, crc) ==
        if next.Err? then next else Read(data, position + 12 + |c.body|, next.value, crc)
  {
  }

  lemma FirstChunk(chunks: seq<Chunk>, rest: Bytes, crc: Checksum)
    requires chunks != [] && forall i :: 0 <= i < |chunks| ==> Proper(chunks[i])
    ensures AllBytes(chunks, crc) + rest == ChunkBytes(chunks[0], crc) + (AllBytes(chunks[1..], crc) + rest)
  {
    Regroup(ChunkBytes(chunks[0], crc), AllBytes(chunks[1..], crc), rest);
  }

  lemma Regroup(a: Bytes, b: Bytes, c: Bytes)
    ensures (a + b) + c == a + (b + c)
  {
  }

  /** The loop stops behind these chunks: nothing follows them, or one of them ends the file, or it has ended. */
  ghost predicate Stops(chunks: seq<Chunk>, rest: Bytes, st: Scan) {
    rest == [] || (exists i :: 0 <= i < |chunks| && chunks[i].kind == IEND) || st.ended
  }

  lemma StopsLater(chunks: seq<Chunk>, rest: Bytes, st: Scan)
    requires chunks != [] && Stops(chunks, rest, st) && !st.ended && Accept(st, chunks[0].kind, chunks[0].body).Ok?
    ensures Stops(chunks[1..], rest, Accept(st, chunks[0].kind, chunks[0].body).value)
  {
    if i :| 0 <= i < |chunks| && chunks[i].kind == IEND {
      if i > 0 { assert chunks[1..][i - 1].kind == IEND; }
    }
  }

  /** Reading written chunks takes exactly those chunks, whatever follows an end chunk. */
  lemma {:induction false} ReadWritten(data: Bytes, position: nat, st: Scan, chunks: seq<Chunk>, rest: Bytes,
      crc: Checksum)
    requires forall i :: 0 <= i < |chunks| ==> Proper(chunks[i])
    requires position <= |data| && data[position..] == AllBytes(chunks, crc) + rest && Stops(chunks, rest, st)
    ensures Read(data, position, st, crc) == Fold(st, chunks)
    decreases |chunks|
  {
    if chunks == [] {
      assert st.ended || position == |data|;
    } else if !st.ended {
      var c := chunks[0];
      FirstChunk(chunks, rest, crc);
      ReadStep(data, position, st, c, AllBytes(chunks[1..], crc) + rest, crc);
      var next := Accept(st, c.kind, c.body);
      if next.Ok? {
        StopsLater(chunks, rest, st);
        ReadWritten(data, position + 12 + |c.body|, next.value, chunks[1..], rest, crc);
      }
    }
  }

  lemma FivePieces(a: Bytes, b: Bytes, c: Bytes, d: Bytes, e: Bytes)
    requires |a| == 4 && |b| == 4 && |d| == 4
    ensures var all, n := a + b + c + d + e, |c|;
      && all[..4] == a && all[4..8] == b && all[8..8 + n] == c && all[8 + n..12 + n] == d && all[12 + n..] == e
  {
  }

  /** Where the four fields of a chunk are. */
  lemma ChunkLayout(data: Bytes, position: nat, c: Chunk, tail: Bytes, crc: Checksum)
    requires Proper(c) && position <= |data| && data[position..] == ChunkBytes(c, crc) + tail
    ensures var start, n := position + 8, |c.body|;
      && start + n + 4 <= |data|
      && Word(data[position..position + 4]) == n && data[position + 4..start] == c.kind
      && data[start..start + n] == c.body && Word(data[start + n..start + n + 4]) == crc(c.kind + c.body)
      && data[start + n + 4..] == tail
  {
    var view, n, sum := data[position..], |c.body|, WordBytes(crc(c.kind + c.body));
    Regroup(WordBytes(n) + c.kind + c.body, sum, tail);
    FivePieces(WordBytes(n), c.kind, c.body, sum, tail);
    NumberRoundTrip(n, 4);
    NumberRoundTrip(crc(c.kind + c.body), 4);
    SubSlice(data, position, 0, 4);
    SubSlice(data, position, 4, 8);
    SubSlice(data, position, 8, 8 + n);
    SubSlice(data, position, 8 + n, 12 + n);
    SubSlice(data, position, 12 + n, |view|);
  }

  lemma SubSlice(data: Bytes, p: nat, a: nat, b: nat)
    requires p <= |data| && a <= b <= |data| - p
    ensures data[p..][a..b] == data[p + a..p + b]
  {
  }

  lemma ReadRound(data: Bytes, position: nat, st: Scan, crc: Checksum)
    requires position < |data| && !st.ended && Read(data, position, st, crc).Ok?
    ensures position + 8 <= |data| && position + 12 + Word(data[position..position + 4]) <= |data|
    ensures var length, start := Word(data[position..position + 4]), position + 8;
      var kind, body := data[position + 4..start], data[start..start + length];
      && Word(data[start + length..start + length + 4]) == crc(kind + body) && Accept(st, kind, body).Ok?
      && Read(data, position, st, crc) == Read(data, start + length + 4, Accept(st, kind, body).value, crc)
  {
  }

  /** A length, four bytes, that many bytes and a right checksum are one written chunk. */
  lemma ChunkFrom(length: Bytes, kind: Bytes, body: Bytes, sum: Bytes, crc: Checksum)
    requires |length| == 4 && |kind| == 4 && |sum| == 4 && Word(length) == |body| && Word(sum) == crc(kind + body)
    ensures Proper(Chunk(kind, body)) && length + kind + body + sum == ChunkBytes(Chunk(kind, body), crc)
  {
    BytesRoundTrip(length);
    BytesRoundTrip(sum);
  }

  /** One accepted round of the loop consumed the bytes of one well-formed chunk. */
  lemma ReadOne(data: Bytes, position: nat, st: Scan, crc: Checksum) returns (c: Chunk, after: nat)
    requires position < |data| && !st.ended && Read(data, position, st, crc).Ok?
    ensures Proper(c) && position < after <= |data|
    ensures data[position..after] == ChunkBytes(c, crc)
    ensures Accept(st, c.kind, c.body).Ok?
    ensures Read(data, position, st, crc) == Read(data, after, Accept(st, c.kind, c.body).value, crc)
  {
    ReadRound(data, position, st, crc);
    c, after := ChunkAt(data, position, crc);
  }

  /** The chunk whose length stands at the position, and where it ends. */
  lemma ChunkAt(data: Bytes, position: nat, crc: Checksum) returns (c: Chunk, after: nat)
    requires position + 8 <= |data| && position + 12 + Word(data[position..position + 4]) <= |data|
    requires var length, start := Word(data[position..position + 4]), position + 8;
      Word(data[start + length..start + length + 4]) == crc(data[position + 4..start] + data[start..start + length])
    ensures after == position + 12 + Word(data[position..position + 4])
    ensures c == Chunk(data[position + 4..position + 8], data[position + 8..after - 4])
    ensures Proper(c) && data[position..after] == ChunkBytes(c, crc)
  {
    var start := position + 8;
    var end := start + Word(data[position..position + 4]);
    after := end + 4;
    c := Chunk(data[position + 4..start], data[start..end]);
    ChunkFrom(data[position..position + 4], c.kind, c.body, data[end..after], crc);
    FourPieces(data, position, position + 4, start, end, after);
  }

  lemma FourPieces(data: Bytes, a: nat, b: nat, c: nat, d: nat, e: nat)
    requires a <= b <= c <= d <= e <= |data|
    ensures data[a..e] == data[a..b] + data[b..c] + data[c..d] + data[d..e]
  {
    assert data[a..c] == data[a..b] + data[b..c];
    assert data[a..d] == data[a..c] + data[c..d];
    assert data[a..e] == data[a..d] + data[d..e];
  }

  lemma Cut(data: Bytes, a: nat, b: nat)
    requires a <= b <= |data|
    ensures data[a..] == data[a..b] + data[b..]
  {
  }

  /** Only the last chunk may be an end chunk. */
  predicate OneEnd(chunks: seq<Chunk>) { forall i :: 0 <= i < |chunks| && chunks[i].kind == IEND ==> i == |chunks| - 1 }

  lemma OneEndNext(c: Chunk, more: seq<Chunk>)
    requires OneEnd(more) && (c.kind == IEND ==> more == [])
    ensures OneEnd([c] + more)
  {
    forall i | 0 <= i < |[c] + more| && ([c] + more)[i].kind == IEND ensures i == |[c] + more| - 1 {
      if i > 0 { assert ([c] + more)[i] == more[i - 1]; }
    }
  }

  lemma AcceptEnd(st: Scan, body: Bytes)
    ensures Accept(st, IEND, body) == Ok(st.(ended := true))
  {
    assert IEND[1] != IHDR[1] && IEND[1] != IDAT[1];
  }

  /** Whatever the loop accepts is a run of well-formed chunks: the parse is sound as well as complete. */
  lemma {:induction false} ReadIsWritten(data: Bytes, position: nat, st: Scan, crc: Checksum)
    returns (chunks: seq<Chunk>, rest: Bytes)
    requires position <= |data| && Read(data, position, st, crc).Ok?
    ensures forall i :: 0 <= i < |chunks| ==> Proper(chunks[i])
    ensures data[position..] == AllBytes(chunks, crc) + rest
    ensures Fold(st, chunks) == Read(data, position, st, crc)
    ensures rest == [] || Read(data, position, st, crc).value.ended
    ensures OneEnd(chunks) && (st.ended ==> chunks == [])
    decreases |data| - position
  {
    if position == |data| || st.ended {
      chunks, rest := [], data[position..];
      assert [] + rest == rest;
    } else {
      var c, after := ReadOne(data, position, st, crc);
      var more;
      more, rest := ReadIsWritten(data, after, Accept(st, c.kind, c.body).value, crc);
      chunks := [c] + more;
      if c.kind == IEND { AcceptEnd(st, c.body); }
      OneEndNext(c, more);
      assert chunks[1..] == more;
      Cut(data, position, after);
      FirstChunk(chunks, rest, crc);
    }
  }

  // The whole decoder.

  function Join(parts: seq<Bytes>): Bytes {
    if parts == [] then [] else parts[0] + Join(parts[1..])
  }

  /** `zlib.decompress` is a parameter of the model; `None` stands for its error. */
  type Inflate = Bytes -> Option<Bytes>

  datatype Picture = Picture(width: nat, height: nat, rows: seq<Bytes>)

  /** `decode_png_rgba`; the original returns the size and drops the rows. */
  method DecodePngRgba(data: Bytes, crc: Checksum, inflate: Inflate) returns (r: Result<Picture>)
    ensures r == Decoded(data, crc, inflate)
  {
    if |data| < 8 || data[..8] != SIGNATURE { return Err(NotPng); }
    var scan := ReadChunks(data, crc);
    if scan.Err? { return Err(scan.error); }
    var st := scan.value;
    if st.size.None? || !st.ended || st.idat == [] { return Err(Incomplete); }
    var (width, height) := st.size.value;
    var inflated := inflate(Join(st.idat));
    if inflated.None? { return Err(NotInflatable); }
    var stride := width * 4;
    if |inflated.value| != (stride + 1) * height { return Err(WrongSize); }
    var rows := DecodeRows(inflated.value, stride, height);
    if rows.Err? { return Err(rows.error); }
    r := Ok(Picture(width, height, rows.value));
  }

  function Decoded(data: Bytes, crc: Checksum, inflate: Inflate): Result<Picture> {
    if |data| < 8 || data[..8] != SIGNATURE then Err(NotPng)
    else
      var scan := Read(data, 8, NOTHING, crc);
      if scan.Err? then Err(scan.error) else PictureOf(scan.value, inflate)
  }

  /** The part of the decoder behind the chunk loop. */
  function PictureOf(st: Scan, inflate: Inflate): Result<Picture> {
    if st.size.None? || !st.ended || st.idat == [] then Err(Incomplete)
    else
      var (width, height) := st.size.value;
      var inflated := inflate(Join(st.idat));
      if inflated.None? then Err(NotInflatable) else PictureIn(inflated.value, width, height)
  }

  /** The size check and the row loop. */
  function PictureIn(raw: Bytes, width: nat, height: nat): Result<Picture> {
    if |raw| != (width * 4 + 1) * height then Err(WrongSize)
    else
      var rows := Rows(raw, width * 4, height, Zeros(width * 4));
      if rows.Err? then Err(rows.error) else Ok(Picture(width, height, rows.value))
  }

  function Header(width: nat, height: nat): Chunk
    requires width < WORD && height < WORD
  {
    Chunk(IHDR, WordBytes(width) + WordBytes(height) + [8, 6, 0, 0, 0])
  }

  function DataChunks(parts: seq<Bytes>): seq<Chunk> {
    if parts == [] then [] else [Chunk(IDAT, parts[0])] + DataChunks(parts[1..])
  }

  /** A PNG file: signature, header, extra chunks, the compressed data in any split, and the end chunk. */
  function EncodePng(width: nat, height: nat, extra: seq<Chunk>, parts: seq<Bytes>, trailing: Bytes,
      crc: Checksum): Bytes
    requires width < WORD && height < WORD
    requires forall i :: 0 <= i < |extra| ==> Proper(extra[i])
    requires forall i :: 0 <= i < |parts| ==> |parts[i]| < WORD
  {
    ProperChunks(width, height, extra, parts);
    SIGNATURE + AllBytes(FileChunks(width, height, extra, parts), crc) + trailing
  }

  function FileChunks(width: nat, height: nat, extra: seq<Chunk>, parts: seq<Bytes>): seq<Chunk>
    requires width < WORD && height < WORD
  {
    [Header(width, height)] + extra + DataChunks(parts) + [Chunk(IEND, [])]
  }

  lemma {:induction false} DataChunksProper(parts: seq<Bytes>)
    requires forall i :: 0 <= i < |parts| ==> |parts[i]| < WORD
    ensures forall i :: 0 <= i < |DataChunks(parts)| ==> Proper(DataChunks(parts)[i])
  {
    if parts != [] { DataChunksProper(parts[1..]); }
  }

  lemma ProperChunks(width: nat, height: nat, extra: seq<Chunk>, parts: seq<Bytes>)
    requires width < WORD && height < WORD
    requires forall i :: 0 <= i < |extra| ==> Proper(extra[i])
    requires forall i :: 0 <= i < |parts| ==> |parts[i]| < WORD
    ensures var chunks := FileChunks(width, height, extra, parts);
      forall i :: 0 <= i < |chunks| ==> Proper(chunks[i])
  {
    DataChunksProper(parts);
  }

  ghost predicate Ancillary(c: Chunk) { c.kind != IHDR && c.kind != IDAT && c.kind != IEND }

  lemma {:induction false} FoldConcat(st: Scan, s: seq<Chunk>, t: seq<Chunk>)
    requires Fold(st, s).Ok?
    ensures Fold(st, s + t) == Fold(Fold(st, s).value, t)
    decreases |s|
  {
    if s == [] {
      assert s + t == t;
    } else if !st.ended {
      assert (s + t)[0] == s[0] && (s + t)[1..] == s[1..] + t;
      FoldConcat(Accept(st, s[0].kind, s[0].body).value, s[1..], t);
    }
  }

  lemma {:induction false} FoldAncillary(st: Scan, extra: seq<Chunk>)
    requires forall i :: 0 <= i < |extra| ==> Ancillary(extra[i])
    ensures Fold(st, extra) == Ok(st)
    decreases |extra|
  {
    if extra != [] && !st.ended { FoldAncillary(st, extra[1..]); }
  }

  lemma AcceptData(st: Scan, body: Bytes)
    ensures Accept(st, IDAT, body) == Ok(st.(idat := st.idat + [body]))
  {
    assert IDAT[1] != IHDR[1];
  }

  lemma {:induction false} FoldData(st: Scan, parts: seq<Bytes>)
    requires !st.ended
    ensures Fold(st, DataChunks(parts)) == Ok(st.(idat := st.idat + parts))
    decreases |parts|
  {
    if parts == [] {
      assert st.idat + parts == st.idat;
    } else {
      var next := st.(idat := st.idat + [parts[0]]);
      AcceptData(st, parts[0]);
      var chunks := DataChunks(parts);
      assert chunks[0] == Chunk(IDAT, parts[0]) && chunks[1..] == DataChunks(parts[1..]);
      FoldData(next, parts[1..]);
      assert st.idat + parts == (st.idat + [parts[0]]) + parts[1..];
    }
  }

  lemma HeaderTaken(width: nat, height: nat)
    requires 1 <= width < WORD && 1 <= height < WORD
    ensures Accept(NOTHING, IHDR, Header(width, height).body) == Ok(Scan(Some((width, height)), [], false))
  {
    var body := Header(width, height).body;
    assert body[..4] == WordBytes(width) && body[4..8] == WordBytes(height);
    assert body[8..13] == [8, 6, 0, 0, 0];
    NumberRoundTrip(width, 4);
    NumberRoundTrip(height, 4);
  }

  lemma FoldOne(st: Scan, c: Chunk)
    requires !st.ended
    ensures Fold(st, [c]) == Accept(st, c.kind, c.body)
  {
    assert [c][1..] == [];
  }

  lemma FoldFile(width: nat, height: nat, extra: seq<Chunk>, parts: seq<Bytes>)
    requires 1 <= width < WORD && 1 <= height < WORD
    requires forall i :: 0 <= i < |extra| ==> Ancillary(extra[i])
    ensures Fold(NOTHING, FileChunks(width, height, extra, parts)) == Ok(Scan(Some((width, height)), parts, true))
  {
    var header, end := [Header(width, height)], [Chunk(IEND, [])];
    var sized := Scan(Some((width, height)), [], false);
    HeaderTaken(width, height);
    FoldOne(NOTHING, Header(width, height));
    FoldConcat(NOTHING, header, extra);
    FoldAncillary(sized, extra);
    FoldConcat(NOTHING, header + extra, DataChunks(parts));
    FoldData(sized, parts);
    assert [] + parts == parts;
    var full := sized.(idat := parts);
    FoldConcat(NOTHING, header + extra + DataChunks(parts), end);
    FoldOne(full, Chunk(IEND, []));
    AcceptEnd(full, []);
  }

  lemma FileBytes(width: nat, height: nat, extra: seq<Chunk>, parts: seq<Bytes>, trailing: Bytes, crc: Checksum)
    requires width < WORD && height < WORD
    requires forall i :: 0 <= i < |extra| ==> Proper(extra[i])
    requires forall i :: 0 <= i < |parts| ==> |parts[i]| < WORD
    ensures forall i :: 0 <= i < |FileChunks(width, height, extra, parts)| ==>
      Proper(FileChunks(width, height, extra, parts)[i])
    ensures var data, chunks := EncodePng(width, height, extra, parts, trailing, crc),
      FileChunks(width, height, extra, parts);
      && |data| >= 8 && data[..8] == SIGNATURE && data[8..] == AllBytes(chunks, crc) + trailing
      && chunks != [] && chunks[|chunks| - 1].kind == IEND
  {
    ProperChunks(width, height, extra, parts);
    Prefixed(SIGNATURE, AllBytes(FileChunks(width, height, extra, parts), crc), trailing);
  }

  lemma Prefixed(a: Bytes, b: Bytes, c: Bytes)
    ensures (a + b + c)[..|a|] == a && (a + b + c)[|a|..] == b + c
  {
  }

  lemma ReadsFile(width: nat, height: nat, extra: seq<Chunk>, parts: seq<Bytes>, trailing: Bytes, crc: Checksum)
    requires 1 <= width < WORD && 1 <= height < WORD
    requires forall i :: 0 <= i < |extra| ==> Proper(extra[i]) && Ancillary(extra[i])
    requires forall i :: 0 <= i < |parts| ==> |parts[i]| < WORD
    ensures var data := EncodePng(width, height, extra, parts, trailing, crc);
      && |data| >= 8 && data[..8] == SIGNATURE
      && Read(data, 8, NOTHING, crc) == Ok(Scan(Some((width, height)), parts, true))
  {
    var chunks := FileChunks(width, height, extra, parts);
    var data := EncodePng(width, height, extra, parts, trailing, crc);
    FileBytes(width, height, extra, parts, trailing, crc);
    ReadWritten(data, 8, NOTHING, chunks, trailing, crc);
    FoldFile(width, height, extra, parts);
  }

  lemma PictureIs(width: nat, parts: seq<Bytes>, rows: seq<Bytes>, filters: seq<nat>, inflate: Inflate)
    requires |filters| == |rows| && parts != []
    requires forall i :: 0 <= i < |rows| ==> |rows[i]| == width * 4 && filters[i] <= 4
    requires inflate(Join(parts)) == Some(Filtered(rows, filters, width * 4, Zeros(width * 4)))
    ensures PictureOf(Scan(Some((width, |rows|)), parts, true), inflate) == Ok(Picture(width, |rows|, rows))
  {
    DecodingInvertsFiltering(rows, filters, width * 4, Zeros(width * 4));
    PictureFrom(width, Filtered(rows, filters, width * 4, Zeros(width * 4)), rows);
  }

  lemma PictureFrom(width: nat, raw: Bytes, rows: seq<Bytes>)
    requires |raw| == (width * 4 + 1) * |rows| && Rows(raw, width * 4, |rows|, Zeros(width * 4)) == Ok(rows)
    ensures PictureIn(raw, width, |rows|) == Ok(Picture(width, |rows|, rows))
  {
  }

  lemma DecodedIs(data: Bytes, st: Scan, crc: Checksum, inflate: Inflate)
    requires |data| >= 8 && data[..8] == SIGNATURE && Read(data, 8, NOTHING, crc) == Ok(st)
    ensures Decoded(data, crc, inflate) == PictureOf(st, inflate)
  {
  }

  /**
   The decoder accepts every well-formed PNG and gives its size and its original pixels: any filters per
   row, any split of the compressed data, any extra chunks before it and any bytes after the end chunk.
   */
  lemma DecodesEveryPng(rows: seq<Bytes>, filters: seq<nat>, width: nat, extra: seq<Chunk>, parts: seq<Bytes>,
      trailing: Bytes, crc: Checksum, inflate: Inflate)
    requires 1 <= width < WORD && 1 <= |rows| < WORD && |filters| == |rows|
    requires forall i :: 0 <= i < |rows| ==> |rows[i]| == width * 4 && filters[i] <= 4
    requires forall i :: 0 <= i < |extra| ==> Proper(extra[i]) && Ancillary(extra[i])
    requires parts != [] && forall i :: 0 <= i < |parts| ==> |parts[i]| < WORD
    requires inflate(Join(parts)) == Some(Filtered(rows, filters, width * 4, Zeros(width * 4)))
    ensures Decoded(EncodePng(width, |rows|, extra, parts, trailing, crc), crc, inflate) ==
      Ok(Picture(width, |rows|, rows))
  {
    ReadsFile(width, |rows|, extra, parts, trailing, crc);
    DecodedIs(EncodePng(width, |rows|, extra, parts, trailing, crc), Scan(Some((width, |rows|)), parts, true), crc,
      inflate);
    PictureIs(width, parts, rows, filters, inflate);
  }
}

/** What `decode_png_rgba` accepts, what it makes of it, and why it refuses the rest, told on the bytes of the file. */
module PngTheorems {
  import opened Basics
  import opened Png

  // Numbers and names.

  /** Four bytes from `at` on, the most significant first. */
  function BigEndian(b: Bytes, at: nat): nat
    requires at + 4 <= |b|
  {
    var first: int, second: int, third: int, fourth: int := b[at], b[at + 1], b[at + 2], b[at + 3];
    16777216 * first + 65536 * second + 256 * third + fourth
  }

  lemma WordIsBigEndian(b: Bytes, at: nat)
    requires at + 4 <= |b|
    ensures Word(b[at..at + 4]) == BigEndian(b, at)
  {
    var w := b[at..at + 4];
    var three, two, one := w[..3], w[..2], w[..1];
    assert three[..2] == two && two[..1] == one && one[..0] == [];
    assert Number(one) == w[0] && Number(two) == Number(one) * 256 + w[1] && Number(three) == Number(two) * 256 + w[2];
  }

  /** The kind is written with these letters. */
  predicate Named(kind: Bytes, name: string) {
    |kind| == |name| && forall i :: 0 <= i < |name| ==> kind[i] == name[i] as int
  }

  lemma KindNames(kind: Bytes)
    ensures kind == IHDR <==> Named(kind, "IHDR")
    ensures kind == IDAT <==> Named(kind, "IDAT")
    ensures kind == IEND <==> Named(kind, "IEND")
  {
    if Named(kind, "IHDR") { assert kind == IHDR; }
    if Named(kind, "IDAT") { assert kind == IDAT; }
    if Named(kind, "IEND") { assert kind == IEND; }
  }

  lemma JoinIsConcatenation(a: seq<Bytes>, b: seq<Bytes>, part: Bytes)
    ensures Join(a + b) == Join(a) + Join(b) && Join([part]) == part
  {
    assert [part][1..] == [] && part + [] == part;
    JoinConcat(a, b);
  }

  lemma {:induction false} JoinConcat(a: seq<Bytes>, b: seq<Bytes>)
    ensures Join(a + b) == Join(a) + Join(b)
  {
    if a == [] {
      assert a + b == b && [] + Join(b) == Join(b);
    } else {
      assert (a + b)[1..] == a[1..] + b;
      JoinConcat(a[1..], b);
      assert a[0] + (Join(a[1..]) + Join(b)) == (a[0] + Join(a[1..])) + Join(b);
    }
  }

  // What the chunks of an accepted run say.

  /** The bodies of the data chunks, in order. */
  function DataBodies(chunks: seq<Chunk>): seq<Bytes> {
    if chunks == [] then []
    else OwnBody(chunks[0]) + DataBodies(chunks[1..])
  }

  function OwnBody(c: Chunk): seq<Bytes> { if Named(c.kind, "IDAT") then [c.body] else [] }

  predicate IsHeader(c: Chunk) { Named(c.kind, "IHDR") }

  /** An 8-bit RGBA header without interlacing, for an image that is not empty. */
  predicate GoodHeader(c: Chunk) {
    && |c.body| == 13 && c.body[8] == 8 && c.body[9] == 6 && c.body[10] == 0 && c.body[11] == 0 && c.body[12] == 0
    && BigEndian(c.body, 0) >= 1 && BigEndian(c.body, 4) >= 1
  }

  ghost predicate NoHeader(chunks: seq<Chunk>) { forall k :: 0 <= k < |chunks| ==> !IsHeader(chunks[k]) }

  /** One header, which is good and gives the size. */
  ghost predicate HeaderAt(chunks: seq<Chunk>, h: int, width: nat, height: nat) {
    && 0 <= h < |chunks| && IsHeader(chunks[h]) && GoodHeader(chunks[h])
    && width == BigEndian(chunks[h].body, 0) && height == BigEndian(chunks[h].body, 4)
    && forall k :: 0 <= k < |chunks| && k != h ==> !IsHeader(chunks[k])
  }

  /** The size that the chunks give, if they have a header. */
  ghost predicate SizedBy(chunks: seq<Chunk>, size: Option<(nat, nat)>) {
    match size
    case None => NoHeader(chunks)
    case Some((width, height)) => exists h :: HeaderAt(chunks, h, width, height)
  }

  lemma HeaderSlices(body: Bytes)
    requires |body| == 13
    ensures Word(body[..4]) == BigEndian(body, 0) && Word(body[4..8]) == BigEndian(body, 4)
    ensures body[8..13] == body[8..] == [body[8], body[9], body[10], body[11], body[12]]
  {
    assert body[0..4] == body[..4];
    WordIsBigEndian(body, 0);
    WordIsBigEndian(body, 4);
  }

  lemma DifferentNames(kind: Bytes)
    ensures !(Named(kind, "IHDR") && Named(kind, "IDAT")) && !(Named(kind, "IHDR") && Named(kind, "IEND"))
    ensures !(Named(kind, "IDAT") && Named(kind, "IEND"))
  {
    assert "IHDR"[1] != "IDAT"[1] && "IHDR"[1] != "IEND"[1] && "IDAT"[1] != "IEND"[1];
  }

  /** What one chunk does to the scan, or why it is refused. */
  lemma AcceptTells(st: Scan, c: Chunk)
    ensures match Accept(st, c.kind, c.body)
      case Ok(e) =>
        && (if IsHeader(c) then
              GoodHeader(c) && st.size.None? && e.size == Some((BigEndian(c.body, 0), BigEndian(c.body, 4)))
            else e.size == st.size)
        && e.idat == st.idat + OwnBody(c) && e.ended == (st.ended || Named(c.kind, "IEND"))
      case Err(BadHeader) => IsHeader(c) && (|c.body| != 13 || st.size.Some?)
      case Err(NotRgba8) => IsHeader(c) && |c.body| == 13 && c.body[8..] != [8, 6, 0, 0, 0]
      case Err(BadSize) => IsHeader(c) && |c.body| == 13 && (BigEndian(c.body, 0) == 0 || BigEndian(c.body, 4) == 0)
      case Err(_) => false
  {
    KindNames(c.kind);
    DifferentNames(c.kind);
    if |c.body| == 13 { HeaderSlices(c.body); }
  }

  lemma SizedNext(c: Chunk, more: seq<Chunk>, size: Option<(nat, nat)>)
    ensures !IsHeader(c) ==> (SizedBy(more, size) ==> SizedBy([c] + more, size))
    ensures IsHeader(c) && GoodHeader(c) && NoHeader(more) ==>
      SizedBy([c] + more, Some((BigEndian(c.body, 0), BigEndian(c.body, 4))))
  {
    var all := [c] + more;
    forall k | 0 < k < |all| ensures all[k] == more[k - 1] {}
    if !IsHeader(c) && size.Some? && SizedBy(more, size) {
      var h :| HeaderAt(more, h, size.value.0, size.value.1);
      assert HeaderAt(all, h + 1, size.value.0, size.value.1);
    }
    if IsHeader(c) && GoodHeader(c) && NoHeader(more) {
      assert HeaderAt(all, 0, BigEndian(c.body, 0), BigEndian(c.body, 4));
    }
  }

  /** What the scan `e` behind these chunks says, when it was `st` before them. */
  ghost predicate Adds(st: Scan, chunks: seq<Chunk>, e: Scan) {
    && e.idat == st.idat + DataBodies(chunks)
    && (e.ended <==> chunks != [] && Named(chunks[|chunks| - 1].kind, "IEND"))
    && (if st.size.Some? then NoHeader(chunks) && e.size == st.size else SizedBy(chunks, e.size))
  }

  lemma AddsNothing(st: Scan)
    requires !st.ended
    ensures Adds(st, [], st)
  {
    assert st.idat + [] == st.idat;
  }

  lemma SizeFirst(st: Scan, c: Chunk, next: Scan, more: seq<Chunk>, size: Option<(nat, nat)>)
    requires Accept(st, c.kind, c.body) == Ok(next)
    requires if next.size.Some? then NoHeader(more) && size == next.size else SizedBy(more, size)
    ensures if st.size.Some? then NoHeader([c] + more) && size == st.size else SizedBy([c] + more, size)
  {
    AcceptTells(st, c);
    SizedNext(c, more, size);
    var all := [c] + more;
    forall k | 0 <= k < |all| && st.size.Some? ensures !IsHeader(all[k]) {
      if k > 0 { assert all[k] == more[k - 1]; }
    }
  }

  lemma AddsFirst(st: Scan, c: Chunk, next: Scan, more: seq<Chunk>, e: Scan)
    requires !st.ended && Accept(st, c.kind, c.body) == Ok(next)
    requires if next.ended then more == [] && e == next else Adds(next, more, e)
    ensures Adds(st, [c] + more, e)
  {
    AcceptTells(st, c);
    var all := [c] + more;
    assert all[1..] == more && (more != [] ==> all[|all| - 1] == more[|more| - 1]);
    assert (st.idat + OwnBody(c)) + DataBodies(more) == st.idat + (OwnBody(c) + DataBodies(more));
    SizeFirst(st, c, next, more, e.size);
  }

  /** What an accepted run of chunks adds to a scan. */
  lemma {:induction false} FoldTells(st: Scan, chunks: seq<Chunk>)
    requires OneEnd(chunks) && !st.ended && Fold(st, chunks).Ok?
    ensures Adds(st, chunks, Fold(st, chunks).value)
    decreases |chunks|
  {
    if chunks == [] {
      AddsNothing(st);
    } else {
      var c, more := chunks[0], chunks[1..];
      assert chunks == [c] + more;
      var next := Accept(st, c.kind, c.body).value;
      AcceptTells(st, c);
      KindNames(c.kind);
      OneEndRest(chunks);
      if !next.ended { FoldTells(next, more); }
      AddsFirst(st, c, next, more, Fold(next, more).value);
    }
  }

  lemma OneEndRest(chunks: seq<Chunk>)
    requires OneEnd(chunks) && chunks != []
    ensures OneEnd(chunks[1..])
  {
    forall i | 0 <= i < |chunks[1..]| && chunks[1..][i].kind == IEND ensures i == |chunks[1..]| - 1 {
      assert chunks[i + 1].kind == IEND;
    }
  }

  // Rows.

  /** The filter byte at `start` and the `i`-th byte behind it give the `i`-th byte of the row. */
  predicate ByteAt(raw: Bytes, start: int, row: Bytes, previous: Bytes, i: int) {
    && 0 <= i < |row| == |previous| && 0 <= start && start + 1 + i < |raw|
    && RowByte(raw[start], raw[start + 1 + i], row, previous, i)
  }

  /** The row whose filter byte is at `start`, rebuilt byte by byte from the row before it. */
  predicate RowAt(raw: Bytes, start: int, row: Bytes, previous: Bytes) {
    && 0 <= start && start + |row| < |raw| && |row| == |previous|
    && forall i :: 0 <= i < |row| ==> ByteAt(raw, start, row, previous, i)
  }

  predicate RowNumber(raw: Bytes, stride: nat, rows: seq<Bytes>, previous: Bytes, r: nat)
    requires r < |rows|
  {
    |rows[r]| == stride && RowAt(raw, (stride + 1) * r, rows[r], if r == 0 then previous else rows[r - 1])
  }

  /** Row after row, each behind a filter byte, the first under a row `previous`. */
  ghost predicate RowsFrom(raw: Bytes, stride: nat, rows: seq<Bytes>, previous: Bytes) {
    forall r: nat :: r < |rows| ==> RowNumber(raw, stride, rows, previous, r)
  }

  /** The filter byte of row `r` is no filter. */
  predicate BadRow(raw: Bytes, stride: nat, r: nat) {
    0 <= (stride + 1) * r < |raw| && raw[(stride + 1) * r] > 4
  }

  lemma FirstRow(raw: Bytes, stride: nat, previous: Bytes)
    requires |raw| >= stride + 1 && |previous| == stride && raw[0] <= 4
    ensures RowAt(raw, 0, Unfilter(raw[0], raw[1..stride + 1], previous, stride), previous)
  {
    var scan := raw[1..stride + 1];
    forall i | 0 <= i < stride ensures ByteAt(raw, 0, Unfilter(raw[0], scan, previous, stride), previous, i) {
      RebuiltByte(raw[0], scan, previous, i);
      assert scan[i] == raw[1 + i];
    }
  }

  lemma LaterRow(raw: Bytes, n: nat, start: int, row: Bytes, previous: Bytes)
    requires n <= |raw| && RowAt(raw[n..], start, row, previous)
    ensures RowAt(raw, start + n, row, previous)
  {
    var tail, later := raw[n..], start + n;
    assert raw[later] == tail[start];
    forall i | 0 <= i < |row| ensures ByteAt(raw, later, row, previous, i) {
      assert ByteAt(tail, start, row, previous, i);
      assert raw[later + 1 + i] == tail[start + 1 + i];
    }
  }

  lemma NextStart(stride: nat, r: nat)
    ensures (stride + 1) * (r + 1) == (stride + 1) * r + (stride + 1)
  {
  }

  lemma RowsBehind(raw: Bytes, stride: nat, row: Bytes, rest: seq<Bytes>, previous: Bytes)
    requires |raw| >= stride + 1 && |row| == stride && RowAt(raw, 0, row, previous)
    requires RowsFrom(raw[stride + 1..], stride, rest, row)
    ensures RowsFrom(raw, stride, [row] + rest, previous)
  {
    var rows := [row] + rest;
    forall r: nat | r < |rows| ensures RowNumber(raw, stride, rows, previous, r) {
      if r == 0 {
        assert (stride + 1) * 0 == 0;
      } else {
        NextStart(stride, r - 1);
        assert rows[r] == rest[r - 1] && (r > 1 ==> rows[r - 1] == rest[r - 2]);
        assert RowNumber(raw[stride + 1..], stride, rest, row, r - 1);
        LaterRow(raw, stride + 1, (stride + 1) * (r - 1), rest[r - 1], rows[r - 1]);
      }
    }
  }

  /** Every row is rebuilt from its own bytes and the row before it; the only error is a filter above 4. */
  lemma {:induction false} RowsTell(raw: Bytes, stride: nat, count: nat, previous: Bytes)
    requires |raw| == (stride + 1) * count && |previous| == stride
    ensures match Rows(raw, stride, count, previous)
      case Ok(rows) => |rows| == count && RowsFrom(raw, stride, rows, previous)
      case Err(e) => e == BadFilter && exists r: nat :: r < count && BadRow(raw, stride, r)
    decreases count
  {
    if count > 0 {
      OneRowLess(stride, count);
      if raw[0] > 4 {
        assert (stride + 1) * 0 == 0 && BadRow(raw, stride, 0);
      } else {
        var row := Unfilter(raw[0], raw[1..stride + 1], previous, stride);
        FirstRow(raw, stride, previous);
        RowsTell(raw[stride + 1..], stride, count - 1, row);
        var rest := Rows(raw[stride + 1..], stride, count - 1, row);
        if rest.Ok? {
          RowsBehind(raw, stride, row, rest.value, previous);
        } else {
          var r: nat :| r < count - 1 && BadRow(raw[stride + 1..], stride, r);
          NextStart(stride, r);
          assert raw[(stride + 1) * r + (stride + 1)] == raw[stride + 1..][(stride + 1) * r];
          assert BadRow(raw, stride, r + 1);
        }
      }
    }
  }

  // The decoder.

  const MAGIC: Bytes := [137, 80, 78, 71, 13, 10, 26, 10]

  /** The file is the signature, this run of chunks, and anything behind it. */
  ghost predicate IsFile(data: Bytes, chunks: seq<Chunk>, rest: Bytes, crc: Checksum) {
    && |data| >= 8 && data[..8] == MAGIC && (forall i :: 0 <= i < |chunks| ==> Proper(chunks[i]))
    && data[8..] == AllBytes(chunks, crc) + rest && OneEnd(chunks)
  }

  lemma ReadTells(data: Bytes, crc: Checksum) returns (chunks: seq<Chunk>, rest: Bytes)
    requires |data| >= 8 && data[..8] == SIGNATURE && Read(data, 8, NOTHING, crc).Ok?
    ensures IsFile(data, chunks, rest, crc) && Adds(NOTHING, chunks, Read(data, 8, NOTHING, crc).value)
    ensures rest == [] || Read(data, 8, NOTHING, crc).value.ended
  {
    chunks, rest := ReadIsWritten(data, 8, NOTHING, crc);
    FoldTells(NOTHING, chunks);
  }

  /** The raw bytes are a filter byte and a row for each line, and every byte of the rows is what its filter says. */
  ghost predicate Shows(raw: Bytes, p: Picture) {
    |raw| == (p.width * 4 + 1) * p.height && |p.rows| == p.height
    && RowsFrom(raw, p.width * 4, p.rows, Zeros(p.width * 4))
  }

  lemma PictureShows(raw: Bytes, width: nat, height: nat)
    ensures var r := PictureIn(raw, width, height);
      if r.Ok? then r.value.width == width && r.value.height == height && Shows(raw, r.value)
      else
        || (r.error == WrongSize && |raw| != (width * 4 + 1) * height)
        || (r.error == BadFilter && exists k: nat :: k < height && BadRow(raw, width * 4, k))
  {
    if |raw| == (width * 4 + 1) * height { RowsTell(raw, width * 4, height, Zeros(width * 4)); }
  }

  /**
   Whatever is accepted is a PNG file: the signature, chunks with right lengths and checksums, one good header that
   gives the size, an end chunk last, and data chunks whose joined bodies inflate to the lines of the picture.
   */
  lemma AcceptedIs(data: Bytes, crc: Checksum, inflate: Inflate)
    returns (chunks: seq<Chunk>, rest: Bytes, h: int, raw: Bytes)
    requires Decoded(data, crc, inflate).Ok?
    ensures var p := Decoded(data, crc, inflate).value;
      && IsFile(data, chunks, rest, crc) && HeaderAt(chunks, h, p.width, p.height)
      && Named(chunks[|chunks| - 1].kind, "IEND") && DataBodies(chunks) != []
      && inflate(Join(DataBodies(chunks))) == Some(raw) && Shows(raw, p)
  {
    chunks, rest := ReadTells(data, crc);
    var st := Read(data, 8, NOTHING, crc).value;
    assert [] + DataBodies(chunks) == DataBodies(chunks);
    raw := inflate(Join(st.idat)).value;
    PictureShows(raw, st.size.value.0, st.size.value.1);
    h :| HeaderAt(chunks, h, st.size.value.0, st.size.value.1);
  }

  /** Why the chunk loop gives up at `at`, when the chunks before gave this size. */
  ghost predicate GivesUp(data: Bytes, at: nat, size: Option<(nat, nat)>, crc: Checksum, e: Error) {
    && at < |data|
    && match e
       case Truncated => |data| - at < 8 || |data| - at < 12 + BigEndian(data, at)
       case CrcMismatch => Sound(data, at) && crc(KindAt(data, at) + BodyAt(data, at)) != SumAt(data, at)
       case BadHeader => HeaderHere(data, at) && (|BodyAt(data, at)| != 13 || size.Some?)
       case NotRgba8 => HeaderHere(data, at) && |BodyAt(data, at)| == 13 && BodyAt(data, at)[8..] != [8, 6, 0, 0, 0]
       case BadSize =>
         HeaderHere(data, at) && |BodyAt(data, at)| == 13
         && (BigEndian(BodyAt(data, at), 0) == 0 || BigEndian(BodyAt(data, at), 4) == 0)
       case _ => false
  }

  /** A whole chunk fits behind `at`. */
  predicate Sound(data: Bytes, at: nat) { at + 8 <= |data| && at + 12 + BigEndian(data, at) <= |data| }

  function KindAt(data: Bytes, at: nat): Bytes
    requires Sound(data, at)
  {
    data[at + 4..at + 8]
  }

  function BodyAt(data: Bytes, at: nat): Bytes
    requires Sound(data, at)
  {
    data[at + 8..at + 8 + BigEndian(data, at)]
  }

  function SumAt(data: Bytes, at: nat): nat
    requires Sound(data, at)
  {
    BigEndian(data, at + 8 + BigEndian(data, at))
  }

  predicate HeaderHere(data: Bytes, at: nat) { Sound(data, at) && Named(KindAt(data, at), "IHDR") }

  lemma GivesUpHere(data: Bytes, position: nat, st: Scan, crc: Checksum)
    requires position <= |data| && !st.ended && Read(data, position, st, crc).Err?
    requires Sound(data, position) ==>
      var c := Chunk(KindAt(data, position), BodyAt(data, position));
      SumAt(data, position) != crc(c.kind + c.body) || Accept(st, c.kind, c.body).Err?
    ensures GivesUp(data, position, st.size, crc, Read(data, position, st, crc).error)
  {
    if position + 8 <= |data| { WordIsBigEndian(data, position); }
    if Sound(data, position) {
      WordIsBigEndian(data, position + 8 + BigEndian(data, position));
      AcceptTells(st, Chunk(KindAt(data, position), BodyAt(data, position)));
    }
  }

  /** A sound chunk with the right checksum that is accepted: the loop goes on behind it. */
  lemma GoesOn(data: Bytes, position: nat, st: Scan, crc: Checksum) returns (c: Chunk, after: nat)
    requires position <= |data| && !st.ended && Sound(data, position)
    requires SumAt(data, position) == crc(KindAt(data, position) + BodyAt(data, position))
    requires Accept(st, KindAt(data, position), BodyAt(data, position)).Ok?
    ensures c == Chunk(KindAt(data, position), BodyAt(data, position)) && position < after <= |data|
    ensures Proper(c) && data[position..after] == ChunkBytes(c, crc)
    ensures Read(data, position, st, crc) == Read(data, after, Accept(st, c.kind, c.body).value, crc)
  {
    WordIsBigEndian(data, position);
    WordIsBigEndian(data, position + 8 + BigEndian(data, position));
    c, after := ChunkAt(data, position, crc);
    ReadUnfolds(data, position, st, c, crc);
  }

  lemma BytesBehind(data: Bytes, a: nat, b: nat, e: nat, c: Chunk, more: seq<Chunk>, crc: Checksum)
    requires a <= b <= e <= |data| && Proper(c) && forall i :: 0 <= i < |more| ==> Proper(more[i])
    requires data[a..b] == ChunkBytes(c, crc) && data[b..e] == AllBytes(more, crc)
    ensures (forall i :: 0 <= i < |[c] + more| ==> Proper(([c] + more)[i])) && data[a..e] == AllBytes([c] + more, crc)
  {
    assert data[a..e] == data[a..b] + data[b..e];
    assert ([c] + more)[1..] == more;
  }

  /** The chunks read before the loop gave up. */
  lemma {:induction false} ReadFails(data: Bytes, position: nat, st: Scan, crc: Checksum)
    returns (at: nat, chunks: seq<Chunk>)
    requires position <= |data| && !st.ended && Read(data, position, st, crc).Err?
    ensures position <= at <= |data| && forall i :: 0 <= i < |chunks| ==> Proper(chunks[i])
    ensures data[position..at] == AllBytes(chunks, crc) && OneEnd(chunks)
    ensures Fold(st, chunks).Ok? && !Fold(st, chunks).value.ended
    ensures GivesUp(data, at, Fold(st, chunks).value.size, crc, Read(data, position, st, crc).error)
    decreases |data| - position
  {
    if Sound(data, position) && SumAt(data, position) == crc(KindAt(data, position) + BodyAt(data, position))
      && Accept(st, KindAt(data, position), BodyAt(data, position)).Ok?
    {
      var c, after := GoesOn(data, position, st, crc);
      var next := Accept(st, c.kind, c.body).value;
      var more;
      at, more := ReadFails(data, after, next, crc);
      chunks := [c] + more;
      assert chunks[1..] == more;
      if c.kind == IEND { AcceptEnd(st, c.body); }
      OneEndNext(c, more);
      BytesBehind(data, position, after, at, c, more, crc);
    } else {
      at, chunks := position, [];
      GivesUpHere(data, position, st, crc);
    }
  }

  /**
   Every refusal has its reason: no signature; at some chunk behind sound ones too few bytes, a wrong checksum or a bad
   header; no header, no end or no data; data that does not inflate, or not to the right size; a filter above 4.
   */
  lemma RefusedFor(data: Bytes, crc: Checksum, inflate: Inflate)
    requires Decoded(data, crc, inflate).Err?
    ensures var e := Decoded(data, crc, inflate).error;
      if e == NotPng then |data| < 8 || data[..8] != MAGIC
      else
        && |data| >= 8 && data[..8] == MAGIC
        && (GivesUpSomewhere(data, crc, e)
            || exists chunks, rest :: IsFile(data, chunks, rest, crc) && Lacks(chunks, inflate, e))
  {
    if |data| >= 8 && data[..8] == SIGNATURE {
      var scan := Read(data, 8, NOTHING, crc);
      if scan.Err? {
        var at, chunks := ReadFails(data, 8, NOTHING, crc);
        FoldTells(NOTHING, chunks);
        assert SizedBy(chunks, Fold(NOTHING, chunks).value.size);
        assert GivesUpSomewhere(data, crc, scan.error);
      } else {
        var chunks, rest := ReadTells(data, crc);
        LacksSomething(chunks, scan.value, inflate);
      }
    }
  }

  lemma LacksSomething(chunks: seq<Chunk>, st: Scan, inflate: Inflate)
    requires Adds(NOTHING, chunks, st) && PictureOf(st, inflate).Err?
    ensures Lacks(chunks, inflate, PictureOf(st, inflate).error)
  {
    assert [] + DataBodies(chunks) == DataBodies(chunks);
    if st.size.Some? {
      var inflated := inflate(Join(st.idat));
      if inflated.Some? { PictureShows(inflated.value, st.size.value.0, st.size.value.1); }
      var h :| HeaderAt(chunks, h, st.size.value.0, st.size.value.1);
    }
  }

  ghost predicate GivesUpSomewhere(data: Bytes, crc: Checksum, e: Error)
    requires |data| >= 8
  {
    exists at: nat, chunks, size ::
      && 8 <= at <= |data| && (forall i :: 0 <= i < |chunks| ==> Proper(chunks[i]))
      && data[8..at] == AllBytes(chunks, crc) && SizedBy(chunks, size) && GivesUp(data, at, size, crc, e)
  }

  /** What a readable run of chunks lacks. */
  ghost predicate Lacks(chunks: seq<Chunk>, inflate: Inflate, e: Error) {
    var bodies := DataBodies(chunks);
    match e
    case Incomplete =>
      NoHeader(chunks) || bodies == [] || !(chunks != [] && Named(chunks[|chunks| - 1].kind, "IEND"))
    case NotInflatable => inflate(Join(bodies)) == None
    case WrongSize =>
      exists h, width: nat, height: nat :: HeaderAt(chunks, h, width, height)
        && inflate(Join(bodies)).Some? && |inflate(Join(bodies)).value| != (width * 4 + 1) * height
    case BadFilter =>
      exists h, width: nat, height: nat, r: nat :: HeaderAt(chunks, h, width, height) && r < height
        && inflate(Join(bodies)).Some? && BadRow(inflate(Join(bodies)).value, width * 4, r)
    case _ => false
  }
}

/** The download window: where playback is, which pieces are fetched how urgently,
  * and how much of the window is there.
  */
module BufferWindow {
  import opened Wrappers

  datatype Priority = Unwanted | Readahead | Normal | High | Now

  const NOW_PIECES := 10
  const HIGH_PIECES := 50
  const READ_AHEAD_PIECES := 20

  // ---------- from seconds to bytes ----------

  /** A playback position in seconds as a byte offset; nothing is reported while
    * the duration or the size is unknown. */
  function BytePosition(position: real, duration: real, size: int): Option<int> {
    if duration <= 0.0 || size <= 0 || position < 0.0 then None
    else
      Some(Scaled(if position > duration then duration else position, duration, size))
  }

  function Scaled(p: real, duration: real, size: int): int
    requires duration > 0.0
  {
    Ratio(p, duration, size).Floor
  }

  function Ratio(p: real, duration: real, size: int): real
    requires duration > 0.0
  {
    (p / duration) * (size as real)
  }

  /** Fractions of a duration, given as numbers. */
  lemma FractionsAreOrdered(x: real, y: real, p: real, q: real, duration: real)
    requires x * duration == p && y * duration == q
    requires 0.0 <= p <= q <= duration && duration > 0.0
    ensures 0.0 <= x <= y <= 1.0
  {
    Cancels(0.0, x, duration);
    Cancels(x, y, duration);
    Cancels(y, 1.0, duration);
  }

  lemma Cancels(a: real, b: real, c: real)
    requires a * c <= b * c && c > 0.0
    ensures a <= b
  {
    if a > b { Grows(b, a, c); }
  }

  lemma FractionTimesDuration(p: real, duration: real)
    requires duration > 0.0
    ensures (p / duration) * duration == p
  {
  }

  lemma SharesAreOrdered(x: real, y: real, whole: real)
    requires 0.0 <= x <= y <= 1.0 && whole > 0.0
    ensures 0.0 <= x * whole <= y * whole <= whole
  {
    Scales(0.0, x, whole);
    Scales(x, y, whole);
    Scales(y, 1.0, whole);
  }

  lemma RatioIsMonotone(p: real, q: real, duration: real, size: int)
    requires 0.0 <= p <= q <= duration && duration > 0.0 && size > 0
    ensures 0.0 <= Ratio(p, duration, size) <= Ratio(q, duration, size) <= size as real
  {
    FractionTimesDuration(p, duration);
    FractionTimesDuration(q, duration);
    FractionsAreOrdered(p / duration, q / duration, p, q, duration);
    SharesAreOrdered(p / duration, q / duration, size as real);
  }

  lemma Grows(a: real, b: real, c: real)
    requires a < b && c > 0.0
    ensures a * c < b * c
  {
    assert (b - a) * c > 0.0;
  }

  lemma Scales(a: real, b: real, c: real)
    requires a <= b && c > 0.0
    ensures a * c <= b * c
  {
    if a < b { Grows(a, b, c); }
  }

  /** A position is reported exactly when everything about it is known; the offset is
    * then inside the file, and later seconds never come earlier. */
  lemma BytePositionIsSound(p: real, q: real, duration: real, size: int)
    requires p <= q
    ensures BytePosition(p, duration, size).Some? <==> duration > 0.0 && size > 0 && p >= 0.0
    ensures BytePosition(p, duration, size).Some? ==>
              && BytePosition(q, duration, size).Some?
              && 0 <= BytePosition(p, duration, size).value <= BytePosition(q, duration, size).value <= size
  {
    hide Scaled;
    if BytePosition(p, duration, size).Some? {
      ScaledIsMonotone(if p > duration then duration else p, if q > duration then duration else q, duration, size);
    }
  }

  lemma ScaledIsMonotone(p: real, q: real, duration: real, size: int)
    requires 0.0 <= p <= q <= duration && duration > 0.0 && size > 0
    ensures 0 <= Scaled(p, duration, size) <= Scaled(q, duration, size) <= size
  {
    hide Ratio;
    RatioIsMonotone(p, q, duration, size);
    FloorsAreMonotone(Ratio(p, duration, size), Ratio(q, duration, size), size);
  }

  lemma FloorsAreMonotone(x: real, y: real, n: int)
    requires 0.0 <= x <= y <= n as real
    ensures 0 <= x.Floor <= y.Floor <= n
  {
  }

  lemma FloorsBracket(x: real, n: int)
    requires n == x.Floor
    ensures n as real <= x < n as real + 1.0
  {
  }

  lemma ScalesExactly(x: real, p: real, duration: real, whole: real, n: real)
    requires duration > 0.0 && x * duration == p && n <= x * whole < n + 1.0
    ensures n * duration <= p * whole < (n + 1.0) * duration
  {
    Regroup(x, p, duration, whole, x * whole);
    BracketScales(n, x * whole, duration, p * whole);
  }

  lemma Regroup(x: real, p: real, duration: real, whole: real, y: real)
    requires x * duration == p && x * whole == y
    ensures y * duration == p * whole
  {
    Reorder(x, duration, whole);
    Congruent(x * duration, p, whole);
    Congruent(x * whole, y, duration);
  }

  lemma BracketScales(n: real, y: real, duration: real, product: real)
    requires duration > 0.0 && n <= y < n + 1.0 && product == y * duration
    ensures n * duration <= product < (n + 1.0) * duration
  {
    StaysBelow(n, y, duration, product);
    StaysAbove(y, n + 1.0, duration, product);
  }

  lemma StaysBelow(a: real, y: real, c: real, product: real)
    requires a <= y && c > 0.0 && product == y * c
    ensures a * c <= product
  {
    Scales(a, y, c);
  }

  lemma StaysAbove(y: real, b: real, c: real, product: real)
    requires y < b && c > 0.0 && product == y * c
    ensures product < b * c
  {
    Grows(y, b, c);
  }

  lemma Congruent(a: real, b: real, c: real)
    requires a == b
    ensures a * c == b * c
  {
  }

  lemma Reorder(x: real, y: real, z: real)
    ensures (x * y) * z == (x * z) * y
  {
  }

  /** The offset is the whole number of bytes in the share of the file that has been
    * played: the start of the film is its first byte, and its end, or anything later,
    * is the end of the file. */
  lemma OffsetIsTheShare(p: real, duration: real, size: int)
    requires BytePosition(p, duration, size).Some?
    ensures var n, played := BytePosition(p, duration, size).value, if p > duration then duration else p;
      n as real * duration <= played * size as real < (n as real + 1.0) * duration
    ensures p == 0.0 ==> BytePosition(p, duration, size) == Some(0)
    ensures p >= duration ==> BytePosition(p, duration, size) == Some(size)
  {
    var n, played := BytePosition(p, duration, size).value, if p > duration then duration else p;
    FractionTimesDuration(played, duration);
    FloorsBracket(Ratio(played, duration, size), n);
    ScalesExactly(played / duration, played, duration, size as real, n as real);
    BytePositionIsSound(p, p, duration, size);
    if p >= duration {
      Bracketed(n, played, duration, duration, size);
      Trapped(n, size, duration);
    }
    if p == 0.0 { Trapped(n, 0, duration); }
  }

  lemma Bracketed(n: int, p: real, q: real, d: real, size: int)
    requires p == q && n as real * d <= p * size as real < (n as real + 1.0) * d
    ensures n as real * d <= q * size as real < (n as real + 1.0) * d
  {
  }

  lemma Trapped(n: int, m: int, d: real)
    requires d > 0.0 && n as real * d <= d * m as real < (n as real + 1.0) * d
    ensures n == m
  {
    Cancels(n as real, m as real, d);
    if n as real + 1.0 <= m as real { Scales(n as real + 1.0, m as real, d); }
  }

  // ---------- the window ----------

  /** What does not change while a file plays. The float product of the program
    * is taken without rounding. */
  datatype File = File(length: int, pieceSize: int, totalPieces: int, bufferPercent: int, maxBufferSize: int)

  predicate FileOK(f: File) {
    && f.length >= 0 && f.pieceSize > 0 && f.totalPieces >= 0
    && f.length <= f.pieceSize * f.totalPieces
    && f.bufferPercent >= 0 && f.maxBufferSize >= 0
  }

  function WindowSize(f: File): int {
    var share := (f.length * f.bufferPercent) / 100;
    if share > f.maxBufferSize then f.maxBufferSize else share
  }

  function WindowEnd(f: File, position: int): int {
    if position + WindowSize(f) > f.length then f.length else position + WindowSize(f)
  }

  /** The window is one, within the file, exactly when the position is. */
  lemma WindowIsSound(f: File, position: int)
    requires FileOK(f) && position >= 0
    ensures WindowSize(f) >= 0 && WindowEnd(f, position) <= f.length
    ensures position <= WindowEnd(f, position) <==> position <= f.length
  {
    assert f.length * f.bufferPercent >= 0;
  }

  /** The window is the buffered share of the file in whole bytes, or the maximum when
    * that is smaller. */
  lemma WindowIsTheSmaller(f: File)
    requires FileOK(f)
    ensures var w := WindowSize(f);
      && w <= f.maxBufferSize && w * 100 <= f.length * f.bufferPercent
      && (w == f.maxBufferSize || f.length * f.bufferPercent < (w + 1) * 100)
    ensures forall p :: WindowEnd(f, p) <= p + WindowSize(f) && WindowEnd(f, p) in {p + WindowSize(f), f.length}
  {
    Quotient(f.length * f.bufferPercent, 100);
  }

  /** Every position the reporter sends gives a window inside the file. */
  lemma ReportedWindowIsSound(f: File, seconds: real, duration: real)
    requires FileOK(f) && BytePosition(seconds, duration, f.length).Some?
    ensures var p := BytePosition(seconds, duration, f.length).value; 0 <= p <= WindowEnd(f, p) <= f.length
  {
    BytePositionIsSound(seconds, seconds, duration, f.length);
    WindowIsSound(f, BytePosition(seconds, duration, f.length).value);
  }

  /** The priority of one piece, by its own index alone. */
  function Band(first: int, last: int, i: int): Priority {
    if i < first then Unwanted
    else if i <= last then
      if i <= first + NOW_PIECES then Now else if i <= first + HIGH_PIECES then High else Normal
    else if i <= last + READ_AHEAD_PIECES then Readahead
    else Unwanted
  }

  /** The range the first loop scans: from just before the window to the end of the
    * read-ahead, inside the torrent. */
  function ScanLow(first: int): int {
    if first - 1 > 0 then first - 1 else 0
  }

  function ScanHigh(last: int, total: int): int {
    if last + READ_AHEAD_PIECES < total - 1 then last + READ_AHEAD_PIECES else total - 1
  }

  /** The branches of the first loop. */
  function Scanned(first: int, last: int, i: int): Priority {
    if first <= i <= last then
      if i <= first + NOW_PIECES then Now else if i <= first + HIGH_PIECES then High else Normal
    else if last < i <= last + READ_AHEAD_PIECES then Readahead
    else Unwanted
  }

  /** What the three loops leave at piece `i`. */
  function Left(first: int, last: int, total: int, i: int): Priority {
    if ScanLow(first) <= i <= ScanHigh(last, total) then Scanned(first, last, i) else Unwanted
  }

  /** The loops give every piece its band, except for a position so far behind the
    * end of its own window that the piece before it is read ahead. */
  lemma LoopsGiveBandsExactly(first: int, last: int, total: int)
    requires first >= 0 && last >= 0 && total >= 0
    ensures (forall i | 0 <= i < total :: Left(first, last, total, i) == Band(first, last, i))
            <==> !(last + 1 < first <= last + 1 + READ_AHEAD_PIECES && first <= total)
  {
    if last + 1 < first <= last + 1 + READ_AHEAD_PIECES && first <= total {
      assert Left(first, last, total, first - 1) == Readahead;
    }
  }

  /** One of the three loops names piece `i`. */
  predicate Named(first: int, last: int, total: int, i: int) {
    || ScanLow(first) <= i <= ScanHigh(last, total)
    || 0 <= i < ScanLow(first)
    || ScanHigh(last, total) < i < total
  }

  /** Every piece the loops name exists, exactly if the window starts at most one
    * piece beyond the torrent; a position further out names a missing piece. */
  lemma LoopsNameExistingPieces(first: int, last: int, total: int)
    requires first >= 0 && last >= 0 && total >= 0
    ensures (forall i | Named(first, last, total, i) :: 0 <= i < total) <==> first <= total + 1
  {
    if first > total + 1 {
      assert Named(first, last, total, total);
    }
  }

  /** The priorities of the whole torrent for one window. */
  function Bands(f: File, start: int, end: int): seq<Priority>
    requires FileOK(f)
  {
    seq(f.totalPieces, i => Band(start / f.pieceSize, end / f.pieceSize, i))
  }

  function Rank(p: Priority): nat {
    match p case Unwanted => 0 case Readahead => 1 case Normal => 2 case High => 3 case Now => 4
  }

  /** Moving away from the playhead a band never rises; behind it nothing is
    * fetched, and at it the piece is fetched first. */
  lemma BandsFallAway(first: int, last: int, i: int, j: int)
    requires first <= last
    ensures first <= i <= j ==> Rank(Band(first, last, i)) >= Rank(Band(first, last, j))
    ensures i < first ==> Band(first, last, i) == Unwanted
    ensures Band(first, last, first) == Now
  {
  }

  // ---------- integer division ----------

  lemma Distribute(d: int, x: int, y: int)
    ensures d * (x - y) == d * x - d * y
    ensures d * (x + y) == d * x + d * y
  {
  }

  lemma MulMonotone(d: int, x: int, y: int)
    requires d > 0 && x <= y
    ensures d * x <= d * y
  {
    assert d * (y - x) >= 0;
    Distribute(d, y, x);
  }

  /** The quotient is the only one that fits. */
  lemma Quotient(a: int, d: int)
    requires a >= 0 && d > 0
    ensures a / d >= 0 && d * (a / d) <= a < d * (a / d) + d
  {
    assert a == d * (a / d) + a % d;
  }

  lemma QuotientsCompare(q: int, r: int, a: int, b: int, d: int)
    requires d > 0 && d * q <= a <= b < d * r + d
    ensures q <= r
  {
    if q > r {
      MulMonotone(d, r + 1, q);
      Distribute(d, r, 1);
    }
  }

  lemma DivMonotone(a: int, b: int, d: int)
    requires 0 <= a <= b && d > 0
    ensures 0 <= a / d <= b / d
  {
    Quotient(a, d);
    Quotient(b, d);
    QuotientsCompare(a / d, b / d, a, b, d);
  }

  lemma DivBound(a: int, n: int, d: int)
    requires 0 <= a <= d * n && d > 0
    ensures a / d <= n
  {
    Quotient(a, d);
    QuotientsCompare(a / d, n, a, d * n, d);
  }

  lemma QuotientReaches(a: int, d: int, q: int)
    requires a >= 0 && d > 0
    ensures q <= a / d <==> q * d <= a
  {
    Quotient(a, d);
    if q <= a / d { MulMonotone(d, q, a / d); } else {
      MulMonotone(d, a / d + 1, q);
      Distribute(d, a / d, 1);
    }
  }

  /** Which pieces are wanted how much, in bytes: piece `i` holds those from `i * d`
    * on. Nothing that is played already; most urgently the piece of the playhead and
    * ten more, then the next forty, then the rest of the window; and twenty pieces
    * beyond it last. */
  lemma BandsByBytes(f: File, p: int, i: int)
    requires FileOK(f) && 0 <= p <= f.length && 0 <= i < f.totalPieces
    ensures var d, end := f.pieceSize, WindowEnd(f, p);
      var band := Bands(f, p, end)[i];
      && (band == Now <==> p < (i + 1) * d && (i - 10) * d <= p && i * d <= end)
      && (band == High <==> p < (i - 10) * d && (i - 50) * d <= p && i * d <= end)
      && (band == Normal <==> p < (i - 50) * d && i * d <= end)
      && (band == Readahead <==> end < i * d && (i - 20) * d <= end)
      && (band == Unwanted <==> (i + 1) * d <= p || end < (i - 20) * d)
  {
    var d, end := f.pieceSize, WindowEnd(f, p);
    WindowIsSound(f, p);
    hide WindowEnd;
    QuotientReaches(p, d, i - 10);
    QuotientReaches(p, d, i - 50);
    QuotientReaches(p, d, i + 1);
    QuotientReaches(end, d, i);
    QuotientReaches(end, d, i - 20);
    DivMonotone(p, end, d);
  }

  /** The piece the playhead is in is fetched first, and everything before it is not
    * fetched at all; at the very end of the file there may be no such piece. */
  lemma PlayheadComesFirst(f: File, p: int, i: int)
    requires FileOK(f) && 0 <= p <= f.length && 0 <= i < f.totalPieces
    ensures var d, bands := f.pieceSize, Bands(f, p, WindowEnd(f, p));
      && (i * d <= p < (i + 1) * d ==> bands[i] == Now)
      && ((i + 1) * d <= p ==> bands[i] == Unwanted)
    ensures p < f.length ==> exists j | 0 <= j < f.totalPieces :: j * f.pieceSize <= p < (j + 1) * f.pieceSize
  {
    var d := f.pieceSize;
    BandsByBytes(f, p, i);
    WindowIsSound(f, p);
    MulMonotone(d, i - 10, i);
    hide Bands, WindowEnd;
    if p < f.length {
      Quotient(p, d);
      var j := p / d;
      Distribute(d, j, 1);
      if j >= f.totalPieces { MulMonotone(d, f.totalPieces, j); }
      assert j * d <= p < (j + 1) * d;
    }
  }

  /** Positions count from the start of the file, pieces from the start of the torrent.
    * For a file `offset` bytes into its torrent, `i` is the piece the playhead is really
    * in: it comes first exactly if it is at most ten pieces beyond the position and not
    * beyond the window, so always for the first file; and for a file far enough in it is
    * not fetched at all. */
  lemma LaterFilesAreMissed(f: File, p: int, offset: int, i: int)
    requires FileOK(f) && 0 <= p < f.length && offset >= 0 && 0 <= i < f.totalPieces
    requires i * f.pieceSize <= offset + p < (i + 1) * f.pieceSize
    ensures var d, end := f.pieceSize, WindowEnd(f, p);
      var band := Bands(f, p, end)[i];
      && (band == Now <==> (i - 10) * d <= p && i * d <= end)
      && (band == Unwanted <==> end < (i - 20) * d)
      && (offset == 0 ==> band == Now)
      && (offset > WindowSize(f) + 21 * d ==> band == Unwanted)
  {
    BandsByBytes(f, p, i);
    WindowIsTheSmaller(f);
    WindowIsSound(f, p);
    hide Bands, WindowEnd, WindowSize;
    MulMonotone(f.pieceSize, i - 10, i);
    Distribute(f.pieceSize, i, 20);
    Distribute(f.pieceSize, i, 1);
  }

  // ---------- the buffer of one torrent ----------

  /** The indices whose priority is set, in the order the three loops set them. */
  function Swept(low: int, high: int, total: int): seq<int>
    requires 0 <= low && 0 <= high + 1 <= total
  {
    Range(low, high + 1) + Range(0, low) + Range(high + 1, total)
  }

  function Range(a: int, b: int): seq<int> {
    if a <= b then seq(b - a, i => a + i) else []
  }

  /** Every index below `total` is among the swept ones at exactly one place. */
  lemma SweptOnce(low: int, high: int, total: int, i: int)
    requires 0 <= low <= high + 1 <= total && 0 <= i < total
    ensures exists k | 0 <= k < |Swept(low, high, total)| :: Swept(low, high, total)[k] == i
    ensures forall k, l | 0 <= k < l < |Swept(low, high, total)| ::
              Swept(low, high, total)[k] != Swept(low, high, total)[l]
    ensures forall k | 0 <= k < |Swept(low, high, total)| :: 0 <= Swept(low, high, total)[k] < total
  {
    var k := if low <= i <= high then i - low else if i < low then high + 1 - low + i else i;
    assert Swept(low, high, total)[k] == i;
  }

  lemma SweptGroups(before: seq<int>, low: int, high: int, total: int)
    requires 0 <= low && 0 <= high + 1 <= total
    ensures before + Range(low, high + 1) + Range(0, low) + Range(high + 1, total) == before + Swept(low, high, total)
  {
  }

  class TorrentBuffer {
    const file: File
    var currentPosition: int
    var bufferStart: int
    var bufferEnd: int
    const priorities: array<Priority>
    ghost var writes: seq<int>

    ghost predicate Valid()
      reads this
    {
      && FileOK(file) && priorities.Length == file.totalPieces
      && 0 <= bufferStart && 0 <= bufferEnd <= file.length
    }

    /** Every piece the loops name exists. */
    ghost predicate InReach()
      requires file.pieceSize > 0
      reads this`bufferStart
    {
      FirstPiece() <= file.totalPieces + 1
    }

    function FirstPiece(): int
      requires file.pieceSize > 0
      reads this`bufferStart
    {
      bufferStart / file.pieceSize
    }

    function LastPiece(): int
      requires file.pieceSize > 0
      reads this`bufferEnd
    {
      bufferEnd / file.pieceSize
    }

    /** Every piece has what the loops leave there. */
    ghost predicate Assigned()
      requires file.pieceSize > 0
      reads this, priorities
    {
      forall i | 0 <= i < priorities.Length :: priorities[i] == Left(FirstPiece(), LastPiece(), priorities.Length, i)
    }

    constructor (file: File)
      requires FileOK(file)
      ensures Valid() && this.file == file && currentPosition == bufferStart == bufferEnd == 0
      ensures fresh(priorities) && writes == []
    {
      this.file := file;
      currentPosition, bufferStart, bufferEnd := 0, 0, 0;
      priorities := new Priority[file.totalPieces](_ => Unwanted);
      writes := [];
    }

    method SetPriority(i: int, p: Priority)
      requires 0 <= i < priorities.Length
      modifies priorities, this`writes
      ensures priorities[..] == old(priorities[..])[i := p]
      ensures writes == old(writes) + [i]
    {
      priorities[i] := p;
      writes := writes + [i];
    }

    lemma WindowPieces()
      requires Valid()
      ensures 0 <= FirstPiece() && 0 <= LastPiece() <= file.totalPieces
      ensures bufferStart <= bufferEnd ==> FirstPiece() <= LastPiece()
    {
      Quotient(bufferStart, file.pieceSize);
      DivMonotone(0, bufferEnd, file.pieceSize);
      DivBound(bufferEnd, file.totalPieces, file.pieceSize);
      if bufferStart <= bufferEnd { DivMonotone(bufferStart, bufferEnd, file.pieceSize); }
    }

    /** `ok` is false when the loops come to a piece that does not exist, where the
      * program stops; every existing piece is unwanted by then. */
    method UpdatePiecePriorities() returns (ok: bool)
      requires Valid()
      modifies priorities, this`writes
      ensures Valid() && (ok <==> InReach())
      ensures 0 <= ScanHigh(LastPiece(), file.totalPieces) + 1 <= file.totalPieces
      ensures ok ==> Assigned()
      ensures ok ==>
                writes == old(writes) + Swept(ScanLow(FirstPiece()), ScanHigh(LastPiece(), file.totalPieces),
                                              file.totalPieces)
      ensures !ok ==> (forall i | 0 <= i < priorities.Length :: priorities[i] == Unwanted)
                      && writes == old(writes) + Range(0, file.totalPieces)
    {
      hide FirstPiece, LastPiece, Scanned, Swept;
      WindowPieces();
      var first, last := FirstPiece(), LastPiece();
      var readAheadEnd := last + READ_AHEAD_PIECES;
      var low, high := 0, file.totalPieces - 1;
      if readAheadEnd < high {
        high := readAheadEnd;
      }
      if first - 1 > low {
        low := first - 1;
      }
      ok := SweepPieces(first, last, low, high);
    }

    /** The three loops. */
    method SweepPieces(first: int, last: int, low: int, high: int) returns (ok: bool)
      requires priorities.Length == file.totalPieces && 0 <= low && 0 <= high + 1 <= file.totalPieces
      modifies priorities, this`writes
      ensures ok <==> low <= file.totalPieces
      ensures ok ==> forall k | 0 <= k < file.totalPieces ::
                       priorities[k] == if low <= k <= high then Scanned(first, last, k) else Unwanted
      ensures ok ==> writes == old(writes) + Swept(low, high, file.totalPieces)
      ensures !ok ==> (forall k | 0 <= k < file.totalPieces :: priorities[k] == Unwanted)
                      && writes == old(writes) + Range(0, file.totalPieces)
    {
      hide Scanned, Swept;
      if low <= file.totalPieces { SweptGroups(writes, low, high, file.totalPieces); }
      assert low > high ==> Range(low, high + 1) == [];
      hide Range;
      ScanRange(first, last, low, high);
      ok := ResetBehind(low);
      if ok { ResetBeyond(high); }
    }

    method ScanRange(first: int, last: int, low: int, high: int)
      requires priorities.Length == file.totalPieces && 0 <= low && 0 <= high + 1 <= file.totalPieces
      modifies priorities, this`writes
      ensures forall k | low <= k <= high :: priorities[k] == Scanned(first, last, k)
      ensures writes == old(writes) + Range(low, high + 1)
    {
      var nowEnd, highEnd, readAheadEnd := first + NOW_PIECES, first + HIGH_PIECES, last + READ_AHEAD_PIECES;
      var i := low;
      while i <= high
        invariant low <= i && (low <= high + 1 ==> i <= high + 1) && (low > high + 1 ==> i == low)
        invariant forall k | low <= k < i :: priorities[k] == Scanned(first, last, k)
        invariant writes == old(writes) + Range(low, i)
      {
        if i >= first && i <= last {
          if i <= nowEnd {
            SetPriority(i, Now);
          } else if i <= highEnd {
            SetPriority(i, High);
          } else {
            SetPriority(i, Normal);
          }
        } else if i > last && i <= readAheadEnd {
          SetPriority(i, Readahead);
        } else {
          SetPriority(i, Unwanted);
        }
        i := i + 1;
      }
    }

    /** The pieces behind the scanned range. */
    method ResetBehind(low: int) returns (ok: bool)
      requires priorities.Length == file.totalPieces && 0 <= low
      modifies priorities, this`writes
      ensures ok <==> low <= file.totalPieces
      ensures forall k | 0 <= k < file.totalPieces :: priorities[k] == if k < low then Unwanted else old(priorities[k])
      ensures writes == old(writes) + Range(0, if ok then low else file.totalPieces)
    {
      var i := 0;
      while i < low
        invariant 0 <= i <= low && i <= file.totalPieces
        invariant forall k | 0 <= k < file.totalPieces ::
                    priorities[k] == if k < i then Unwanted else old(priorities[k])
        invariant writes == old(writes) + Range(0, i)
      {
        if i >= file.totalPieces { return false; }
        SetPriority(i, Unwanted);
        i := i + 1;
      }
      return true;
    }

    /** And those beyond it. */
    method ResetBeyond(high: int)
      requires priorities.Length == file.totalPieces && 0 <= high + 1 <= file.totalPieces
      modifies priorities, this`writes
      ensures forall k | 0 <= k < file.totalPieces :: priorities[k] == if high < k then Unwanted else old(priorities[k])
      ensures writes == old(writes) + Range(high + 1, file.totalPieces)
    {
      var i := high + 1;
      while i < file.totalPieces
        invariant high < i <= file.totalPieces
        invariant forall k | 0 <= k < file.totalPieces ::
                    priorities[k] == if high < k < i then Unwanted else old(priorities[k])
        invariant writes == old(writes) + Range(high + 1, i)
      {
        SetPriority(i, Unwanted);
        i := i + 1;
      }
    }

    /** A new playback position: the priorities depend on it alone, whatever they
      * were before; for a position inside the file each piece has its band and was
      * set exactly once. A position further than one piece beyond the torrent takes
      * effect and then runs into a missing piece. */
    method UpdatePosition(position: int) returns (ok: bool)
      requires Valid() && 0 <= position
      modifies this, priorities
      ensures Valid() && (ok <==> position / file.pieceSize <= file.totalPieces + 1)
      ensures currentPosition == bufferStart == position && bufferEnd == WindowEnd(file, position)
      ensures if ok then Assigned() else forall i | 0 <= i < priorities.Length :: priorities[i] == Unwanted
      ensures position <= file.length ==> ok && priorities[..] == Bands(file, position, WindowEnd(file, position))
      ensures position <= file.length ==>
                exists low, high | 0 <= low <= high + 1 <= file.totalPieces ::
                  writes == old(writes) + Swept(low, high, file.totalPieces)
    {
      WindowIsSound(file, position);
      currentPosition := position;
      var share := (file.length * file.bufferPercent) / 100;
      if share > file.maxBufferSize {
        share := file.maxBufferSize;
      }
      bufferStart := position;
      bufferEnd := position + share;
      if bufferEnd > file.length {
        bufferEnd := file.length;
      }
      WindowPieces();
      ok := UpdatePiecePriorities();
      if position <= file.length {
        LoopsGiveBandsExactly(FirstPiece(), LastPiece(), file.totalPieces);
        var low, high := ScanLow(FirstPiece()), ScanHigh(LastPiece(), file.totalPieces);
        assert 0 <= low <= high + 1 <= file.totalPieces;
      }
    }

    /** The periodic update of a buffer that has seen a position changes nothing. */
    method PeriodicUpdate() returns (ok: bool)
      requires Valid()
      requires if InReach() then Assigned() else forall i | 0 <= i < priorities.Length :: priorities[i] == Unwanted
      modifies priorities, this`writes
      ensures Valid() && (ok <==> InReach()) && priorities[..] == old(priorities[..])
    {
      ok := UpdatePiecePriorities();
      assert forall k | 0 <= k < priorities.Length :: priorities[..][k] == old(priorities[..])[k];
    }

    /** How much of the window is there, by the pieces that are complete. */
    method GetBufferInfo(complete: seq<bool>) returns (bytes: int, percent: real, buffering: bool)
      requires Valid() && |complete| == file.totalPieces
      ensures bytes == file.pieceSize * Held(complete, FirstPiece(), LastPiece() + 1)
      ensures percent == Percent(bytes, bufferEnd - bufferStart) && (buffering <==> percent < 95.0)
      ensures buffering <==> bufferStart < bufferEnd ==> bytes * 100 < 95 * (bufferEnd - bufferStart)
    {
      WindowPieces();
      var first, last := FirstPiece(), LastPiece();
      bytes := 0;
      var i := first;
      while i <= last && i < file.totalPieces
        invariant first <= i && (i == first || i <= last + 1) && (i == first || i <= file.totalPieces)
        invariant bytes == file.pieceSize * Held(complete, first, i)
      {
        if complete[i] {
          assert file.pieceSize * (Held(complete, first, i) + 1) == bytes + file.pieceSize;
          bytes := bytes + file.pieceSize;
        }
        i := i + 1;
      }
      assert i > last ==> Held(complete, first, i) == Held(complete, first, last + 1);
      if i <= last { HeldBeyondEnd(complete, first, i, last + 1); }
      percent := Percent(bytes, bufferEnd - bufferStart);
      buffering := percent < 95.0;
      PercentIsTheShare(bytes, bufferEnd - bufferStart);
    }
  }

  function Percent(bytes: int, window: int): real {
    if window > 0 then (bytes as real) / (window as real) * 100.0 else 0.0
  }

  /** The percentage is that of the window, and the threshold exact; nothing is ever
    * enough of an empty window. */
  lemma PercentIsTheShare(bytes: int, window: int)
    ensures window <= 0 ==> Percent(bytes, window) == 0.0
    ensures window > 0 ==> Percent(bytes, window) * window as real == 100.0 * bytes as real
    ensures window > 0 ==> (Percent(bytes, window) < 95.0 <==> bytes * 100 < 95 * window)
  {
    if window > 0 { ShareOfTheWindow(bytes, window); }
  }

  lemma ShareOfTheWindow(bytes: int, window: int)
    requires window > 0
    ensures Percent(bytes, window) * window as real == 100.0 * bytes as real
    ensures Percent(bytes, window) < 95.0 <==> bytes * 100 < 95 * window
  {
    var w, percent := window as real, Percent(bytes, window);
    FractionTimesDuration(bytes as real, w);
    Reorder(bytes as real / w, w, 100.0);
    assert percent * w == 100.0 * bytes as real;
    if percent < 95.0 { Grows(percent, 95.0, w); } else { Scales(95.0, percent, w); }
    assert (bytes * 100) as real == 100.0 * bytes as real && (95 * window) as real == 95.0 * w;
  }

  /** How many of the pieces from `a` up to `b` are there. */
  function Held(complete: seq<bool>, a: int, b: int): nat
    decreases b - a
  {
    if b <= a then 0
    else Held(complete, a, b - 1) + if 0 <= b - 1 < |complete| && complete[b - 1] then 1 else 0
  }

  lemma {:induction false} HeldCounts(complete: seq<bool>, a: int, b: int)
    requires 0 <= a <= b
    ensures Held(complete, a, b) == |set i | a <= i < b && i < |complete| && complete[i]|
    decreases b - a
  {
    var held := set i | a <= i < b && i < |complete| && complete[i];
    if a < b {
      HeldCounts(complete, a, b - 1);
      var fewer := set i | a <= i < b - 1 && i < |complete| && complete[i];
      assert held == if b - 1 < |complete| && complete[b - 1] then fewer + {b - 1} else fewer;
    } else {
      assert held == {};
    }
  }

  lemma {:induction false} HeldBeyondEnd(complete: seq<bool>, a: int, b: int, c: int)
    requires a <= b <= c && b >= |complete|
    ensures Held(complete, a, c) == Held(complete, a, b)
    decreases c - b
  {
    if b < c { HeldBeyondEnd(complete, a, b, c - 1); }
  }

  lemma {:induction false} HeldAtMost(complete: seq<bool>, a: int, b: int)
    requires a <= b
    ensures Held(complete, a, b) <= b - a
    ensures (forall i | a <= i < b && 0 <= i < |complete| :: complete[i]) && 0 <= a && b <= |complete| ==>
              Held(complete, a, b) == b - a
    decreases b - a
  {
    if a < b { HeldAtMost(complete, a, b - 1); }
  }

  /** The buffered bytes are less than the window and two pieces. */
  lemma BufferedBytesAreBounded(f: File, start: int, end: int, complete: seq<bool>)
    requires FileOK(f) && 0 <= start <= end <= f.length
    ensures f.pieceSize * Held(complete, start / f.pieceSize, end / f.pieceSize + 1) < end - start + 2 * f.pieceSize
  {
    DivMonotone(start, end, f.pieceSize);
    Quotient(start, f.pieceSize);
    Quotient(end, f.pieceSize);
    HeldAtMost(complete, start / f.pieceSize, end / f.pieceSize + 1);
    SpanIsBounded(f.pieceSize, start / f.pieceSize, end / f.pieceSize, start, end,
                  Held(complete, start / f.pieceSize, end / f.pieceSize + 1));
  }

  lemma SpanIsBounded(d: int, a: int, b: int, start: int, end: int, n: int)
    requires d > 0 && n <= b + 1 - a && start < d * a + d && d * b <= end
    ensures d * n < end - start + 2 * d
  {
    MulMonotone(d, n, b + 1 - a);
    Distribute(d, b + 1, a);
    Distribute(d, b, 1);
  }

  /** When every piece that touches a nonempty window is there, the window is
    * full and nothing is buffering. */
  lemma CompleteWindowIsFull(f: File, start: int, end: int, complete: seq<bool>)
    requires FileOK(f) && 0 <= start < end <= f.length && |complete| == f.totalPieces
    requires forall i | 0 <= i < |complete| && start / f.pieceSize <= i <= end / f.pieceSize :: complete[i]
    ensures var bytes := f.pieceSize * Held(complete, start / f.pieceSize, end / f.pieceSize + 1);
      bytes >= end - start && Percent(bytes, end - start) >= 100.0
  {
    var d := f.pieceSize;
    DivMonotone(start, end, d);
    DivBound(end, f.totalPieces, d);
    Quotient(start, d);
    Quotient(end, d);
    EveryPieceIsHeld(complete, start / d, end / d, f.totalPieces);
    SpanIsCovered(d, start / d, end / d, start, end, f.totalPieces, Held(complete, start / d, end / d + 1));
    FullRatio(d * Held(complete, start / d, end / d + 1), end - start);
  }

  lemma EveryPieceIsHeld(complete: seq<bool>, a: int, b: int, total: int)
    requires 0 <= a <= b <= total == |complete|
    requires forall i | 0 <= i < |complete| && a <= i <= b :: complete[i]
    ensures Held(complete, a, b + 1) == (if b < total then b + 1 - a else total - a)
  {
    if b < total {
      HeldAtMost(complete, a, b + 1);
    } else {
      HeldAtMost(complete, a, total);
      HeldBeyondEnd(complete, a, total, b + 1);
    }
  }

  lemma SpanIsCovered(d: int, a: int, b: int, start: int, end: int, total: int, n: int)
    requires d > 0 && d * a <= start && end < d * b + d && end <= d * total
    requires n == if b < total then b + 1 - a else total - a
    ensures d * n >= end - start
  {
    Distribute(d, b, 1);
    Distribute(d, b + 1, a);
    Distribute(d, total, a);
  }

  lemma FullRatio(bytes: int, window: int)
    requires 0 < window <= bytes
    ensures Percent(bytes, window) >= 100.0
  {
    var w := window as real;
    var q := (bytes as real) / w;
    assert q * w == bytes as real;
    if q < 1.0 { Grows(q, 1.0, w); }
  }
}

/** Laying the installed DIMM bytes over the guest's address ranges, in order and without interleaving. */
module MemoryMap {
  import opened Outcomes
  import opened Sequences
  import opened DimmLayout

  // ----- address_fields -----

  /** The 32-bit KiB fields of Types 19 and 20, and their extended byte fields. */
  datatype Fields = Fields(first: int, last: int, extendedFirst: int, extendedLast: int)

  const SENTINEL := 0xFFFF_FFFF

  function AddressFields(start: int, end: int): Result<Fields> {
    if start < 0 || end < start || start % 1024 != 0 || (end + 1) % 1024 != 0 then Err(ValueError)
    else if end > 0xFFFF_FFFF_FFFF_FFFF then Err(ValueError)
    else if end / 1024 < SENTINEL then Ok(Fields(start / 1024, end / 1024, 0, 0))
    else Ok(Fields(SENTINEL, SENTINEL, start, end))
  }

  /** How the fields are read (DMTF DSP0134 sections 7.20 and 7.21). */
  function DecodeFields(f: Fields): (int, int) {
    if f.first == SENTINEL then (f.extendedFirst, f.extendedLast) else (f.first * 1024, f.last * 1024 + 1023)
  }

  /** The fields of any KiB-aligned 64-bit range fit their widths and decode back to the range. */
  lemma FieldsRoundTrip(start: int, end: int)
    requires 0 <= start <= end && start % 1024 == 0 && (end + 1) % 1024 == 0 && end <= 0xFFFF_FFFF_FFFF_FFFF
    ensures AddressFields(start, end).Ok? && DecodeFields(AddressFields(start, end).value) == (start, end)
    ensures var f := AddressFields(start, end).value;
      0 <= f.first <= SENTINEL && 0 <= f.last <= SENTINEL
      && 0 <= f.extendedFirst <= 0xFFFF_FFFF_FFFF_FFFF && 0 <= f.extendedLast <= 0xFFFF_FFFF_FFFF_FFFF
  {
    assert start / 1024 <= end / 1024;
  }

  // ----- device_ranges -----

  /** A part of one DIMM mapped into one range, with inclusive guest addresses. */
  datatype Piece = Piece(device: nat, mapped: nat, start: int, end: int)

  function Length(r: Range): int {
    r.end - r.start + 1
  }

  function RangeOffset(ranges: seq<Range>, j: nat): int
    requires j <= |ranges|
  {
    if j == 0 then 0 else RangeOffset(ranges, j - 1) + Length(ranges[j - 1])
  }

  function DimmOffset(sizes: seq<int>, i: nat): int
    requires i <= |sizes|
  {
    if i == 0 then 0 else DimmOffset(sizes, i - 1) + sizes[i - 1] * MIB
  }

  function Max(a: int, b: int): int { if a < b then b else a }
  function Min(a: int, b: int): int { if a < b then a else b }

  function Overlap(sizes: seq<int>, ranges: seq<Range>, i: nat, j: nat): seq<Piece>
    requires i < |sizes| && j < |ranges|
  {
    var offset := RangeOffset(ranges, j);
    var first := Max(DimmOffset(sizes, i), offset);
    var last := Min(DimmOffset(sizes, i + 1), offset + Length(ranges[j]));
    if first < last then [Piece(i, j, ranges[j].start + first - offset, ranges[j].start + last - offset - 1)] else []
  }

  /** The pieces of one DIMM in the first `m` ranges. */
  function Row(sizes: seq<int>, ranges: seq<Range>, i: nat, m: nat): seq<Piece>
    requires i < |sizes| && m <= |ranges|
  {
    if m == 0 then [] else Row(sizes, ranges, i, m - 1) + Overlap(sizes, ranges, i, m - 1)
  }

  /** The pieces of the first `n` DIMMs. */
  function Pieces(sizes: seq<int>, ranges: seq<Range>, n: nat): seq<Piece>
    requires n <= |sizes|
  {
    if n == 0 then [] else Pieces(sizes, ranges, n - 1) + Row(sizes, ranges, n - 1, |ranges|)
  }

  lemma NothingYet(sizes: seq<int>, ranges: seq<Range>)
    ensures DimmOffset(sizes, 0) == 0 && Pieces(sizes, ranges, 0) == []
  {
  }

  lemma DimmStep(sizes: seq<int>, ranges: seq<Range>, i: nat)
    requires i < |sizes|
    ensures DimmOffset(sizes, i + 1) == DimmOffset(sizes, i) + sizes[i] * MIB
    ensures Pieces(sizes, ranges, i + 1) == Pieces(sizes, ranges, i) + Row(sizes, ranges, i, |ranges|)
    ensures RangeOffset(ranges, 0) == 0 && Row(sizes, ranges, i, 0) == []
  {
  }

  lemma RowStep(sizes: seq<int>, ranges: seq<Range>, i: nat, m: nat)
    requires i < |sizes| && m < |ranges|
    ensures RangeOffset(ranges, m + 1) == RangeOffset(ranges, m) + Length(ranges[m])
    ensures Row(sizes, ranges, i, m + 1) == Row(sizes, ranges, i, m) + Overlap(sizes, ranges, i, m)
  {
  }

  method DeviceRanges(sizes: seq<int>, ranges: seq<Range>) returns (result: seq<Piece>)
    ensures result == Pieces(sizes, ranges, |sizes|)
  {
    hide RangeOffset, DimmOffset, Row, Pieces;
    result := [];
    var deviceOffset := 0;
    NothingYet(sizes, ranges);
    for index := 0 to |sizes|
      invariant deviceOffset == DimmOffset(sizes, index) && result == Pieces(sizes, ranges, index)
    {
      var deviceEnd := deviceOffset + sizes[index] * MIB;
      var rangeOffset := 0;
      ghost var before := result;
      DimmStep(sizes, ranges, index);
      for mapped := 0 to |ranges|
        invariant rangeOffset == RangeOffset(ranges, mapped)
        invariant result == before + Row(sizes, ranges, index, mapped)
      {
        var start, end := ranges[mapped].start, ranges[mapped].end;
        var length := end - start + 1;
        var first, last := Max(deviceOffset, rangeOffset), Min(deviceEnd, rangeOffset + length);
        RowStep(sizes, ranges, index, mapped);
        if first < last {
          result := result + [Piece(index, mapped, start + first - rangeOffset, start + last - rangeOffset - 1)];
        }
        rangeOffset := rangeOffset + length;
      }
      deviceOffset := deviceEnd;
    }
  }

  // ----- the overlay in installed-byte space -----

  predicate Sane(sizes: seq<int>, ranges: seq<Range>) {
    && (forall i :: 0 <= i < |sizes| ==> sizes[i] >= 0)
    && (forall j :: 0 <= j < |ranges| ==> Length(ranges[j]) >= 0)
  }

  /** Where a piece begins and ends when the bytes of all ranges are counted in a row. */
  function From(ranges: seq<Range>, p: Piece): int
    requires p.mapped < |ranges|
  {
    RangeOffset(ranges, p.mapped) + (p.start - ranges[p.mapped].start)
  }

  function Until(ranges: seq<Range>, p: Piece): int
    requires p.mapped < |ranges|
  {
    From(ranges, p) + (p.end - p.start + 1)
  }

  /** A nonempty piece that lies inside its range. */
  predicate Inside(ranges: seq<Range>, p: Piece) {
    p.mapped < |ranges| && ranges[p.mapped].start <= p.start <= p.end <= ranges[p.mapped].end
  }

  /** The pieces follow one another without gap or overlap from one offset to another. */
  predicate Contiguous(ranges: seq<Range>, pieces: seq<Piece>, from: int, to: int)
    decreases |pieces|
  {
    if pieces == [] then from == to
    else Inside(ranges, pieces[0]) && From(ranges, pieces[0]) == from
         && Contiguous(ranges, pieces[1..], Until(ranges, pieces[0]), to)
  }

  lemma {:induction false} ContiguousAppend(ranges: seq<Range>, a: seq<Piece>, b: seq<Piece>, from: int, mid: int,
                                            to: int)
    requires Contiguous(ranges, a, from, mid) && Contiguous(ranges, b, mid, to)
    ensures Contiguous(ranges, a + b, from, to)
    decreases |a|
  {
    if a == [] {
      assert a + b == b;
    } else {
      ContiguousAppend(ranges, a[1..], b, Until(ranges, a[0]), mid, to);
      assert (a + b)[1..] == a[1..] + b;
    }
  }

  function Clamp(x: int, low: int, high: int): int {
    Min(Max(x, low), high)
  }

  lemma {:induction false} OffsetsGrow(sizes: seq<int>, ranges: seq<Range>, i: nat, j: nat)
    requires Sane(sizes, ranges) && i <= |sizes| && j <= |ranges|
    ensures DimmOffset(sizes, i) >= 0 && RangeOffset(ranges, j) >= 0
    decreases i + j
  {
    if i > 0 {
      OffsetsGrow(sizes, ranges, i - 1, j);
    } else if j > 0 {
      OffsetsGrow(sizes, ranges, i, j - 1);
    }
  }

  lemma {:induction false} RangeOffsetMonotone(ranges: seq<Range>, i: nat, j: nat)
    requires i <= j <= |ranges| && forall k :: 0 <= k < |ranges| ==> Length(ranges[k]) >= 0
    ensures RangeOffset(ranges, i) <= RangeOffset(ranges, j)
    decreases j
  {
    if i < j {
      RangeOffsetMonotone(ranges, i, j - 1);
    }
  }

  lemma OverlapIsContiguous(sizes: seq<int>, ranges: seq<Range>, i: nat, m: nat)
    requires Sane(sizes, ranges) && i < |sizes| && m < |ranges|
    ensures var low, high := DimmOffset(sizes, i), DimmOffset(sizes, i + 1);
      Contiguous(ranges, Overlap(sizes, ranges, i, m),
                 Clamp(RangeOffset(ranges, m), low, high), Clamp(RangeOffset(ranges, m + 1), low, high))
  {
    var pieces := Overlap(sizes, ranges, i, m);
    if pieces != [] {
      assert pieces[1..] == [];
    }
  }

  lemma NothingIsContiguous(ranges: seq<Range>, at: int)
    ensures Contiguous(ranges, [], at, at)
  {
  }

  lemma {:induction false} RowIsContiguous(sizes: seq<int>, ranges: seq<Range>, i: nat, m: nat)
    requires Sane(sizes, ranges) && i < |sizes| && m <= |ranges|
    ensures var low, high := DimmOffset(sizes, i), DimmOffset(sizes, i + 1);
      low <= high && Contiguous(ranges, Row(sizes, ranges, i, m), low, Clamp(RangeOffset(ranges, m), low, high))
    decreases m
  {
    hide Overlap, Contiguous, RangeOffset;
    var low, high := DimmOffset(sizes, i), DimmOffset(sizes, i + 1);
    if m == 0 {
      OffsetsGrow(sizes, ranges, i, 0);
      FirstOffset(ranges);
      NothingIsContiguous(ranges, low);
    } else {
      RowIsContiguous(sizes, ranges, i, m - 1);
      OverlapIsContiguous(sizes, ranges, i, m - 1);
      ContiguousAppend(ranges, Row(sizes, ranges, i, m - 1), Overlap(sizes, ranges, i, m - 1),
        low, Clamp(RangeOffset(ranges, m - 1), low, high), Clamp(RangeOffset(ranges, m), low, high));
    }
  }

  lemma FirstOffset(ranges: seq<Range>)
    ensures RangeOffset(ranges, 0) == 0
  {
  }

  lemma {:induction false} RowDevice(sizes: seq<int>, ranges: seq<Range>, i: nat, m: nat, k: nat)
    requires i < |sizes| && m <= |ranges| && k < |Row(sizes, ranges, i, m)|
    ensures Row(sizes, ranges, i, m)[k].device == i
    decreases m
  {
    if k < |Row(sizes, ranges, i, m - 1)| {
      RowDevice(sizes, ranges, i, m - 1, k);
    }
  }

  lemma {:induction false} DimmOffsetMonotone(sizes: seq<int>, i: nat, j: nat)
    requires i <= j <= |sizes| && forall k :: 0 <= k < |sizes| ==> sizes[k] >= 0
    ensures DimmOffset(sizes, i) <= DimmOffset(sizes, j)
    decreases j
  {
    if i < j {
      DimmOffsetMonotone(sizes, i, j - 1);
    }
  }

  lemma SizesAreSane(sizes: seq<int>, ranges: seq<Range>)
    requires Sane(sizes, ranges)
    ensures forall k :: 0 <= k < |sizes| ==> sizes[k] >= 0
  {
  }

  /** As long as the DIMMs fit the ranges, their pieces fill the installed bytes without gap or overlap. */
  lemma {:induction false} PiecesAreContiguous(sizes: seq<int>, ranges: seq<Range>, n: nat)
    requires Sane(sizes, ranges) && n <= |sizes| && DimmOffset(sizes, n) <= RangeOffset(ranges, |ranges|)
    ensures Contiguous(ranges, Pieces(sizes, ranges, n), 0, DimmOffset(sizes, n))
    decreases n
  {
    hide Contiguous, Row, Sane, RangeOffset;
    if n == 0 {
      NothingIsContiguous(ranges, 0);
    } else {
      SizesAreSane(sizes, ranges);
      DimmOffsetMonotone(sizes, n - 1, n);
      PiecesAreContiguous(sizes, ranges, n - 1);
      RowIsContiguous(sizes, ranges, n - 1, |ranges|);
      ContiguousAppend(ranges, Pieces(sizes, ranges, n - 1), Row(sizes, ranges, n - 1, |ranges|),
        0, DimmOffset(sizes, n - 1), DimmOffset(sizes, n));
    }
  }

  // ----- every range byte exactly once -----

  predicate Holds(ranges: seq<Range>, p: Piece, x: int) {
    p.mapped < |ranges| && From(ranges, p) <= x < Until(ranges, p)
  }

  /** One piece lies wholly before another. */
  predicate Precedes(ranges: seq<Range>, p: Piece, q: Piece) {
    Inside(ranges, p) && Inside(ranges, q) && Until(ranges, p) <= From(ranges, q)
  }

  lemma {:induction false} ContiguousHolds(ranges: seq<Range>, pieces: seq<Piece>, from: int, to: int, x: int)
    requires Contiguous(ranges, pieces, from, to)
    ensures from <= to
    ensures from <= x < to ==> exists k :: 0 <= k < |pieces| && Holds(ranges, pieces[k], x)
    ensures forall k :: 0 <= k < |pieces| ==> Inside(ranges, pieces[k]) && from <= From(ranges, pieces[k])
                                              && Until(ranges, pieces[k]) <= to
    ensures forall k, l :: 0 <= k < l < |pieces| ==> Precedes(ranges, pieces[k], pieces[l])
    decreases |pieces|
  {
    if pieces != [] {
      var rest := pieces[1..];
      ContiguousHolds(ranges, rest, Until(ranges, pieces[0]), to, x);
      assert forall k :: 1 <= k < |pieces| ==> pieces[k] == rest[k - 1];
      if from <= x < to {
        if x < Until(ranges, pieces[0]) {
          assert Holds(ranges, pieces[0], x);
        } else {
          var k :| 0 <= k < |rest| && Holds(ranges, rest[k], x);
          assert Holds(ranges, pieces[k + 1], x);
        }
      }
    }
  }

  /** The address belongs to the piece. */
  predicate Maps(p: Piece, mapped: nat, address: int) {
    p.mapped == mapped && p.start <= address <= p.end
  }

  /**
   The overlay is exact: when the DIMM bytes equal the range bytes, every address of every range
   belongs to exactly one piece, every piece lies inside its range, and the pieces are in order.
   */
  lemma OverlayIsExact(sizes: seq<int>, ranges: seq<Range>, pieces: seq<Piece>, mapped: nat, address: int)
    requires Sane(sizes, ranges) && DimmOffset(sizes, |sizes|) == RangeOffset(ranges, |ranges|)
    requires pieces == Pieces(sizes, ranges, |sizes|)
    requires mapped < |ranges| && ranges[mapped].start <= address <= ranges[mapped].end
    ensures exists k :: 0 <= k < |pieces| && Maps(pieces[k], mapped, address)
    ensures forall k, l ::
      0 <= k < l < |pieces| ==> !(Maps(pieces[k], mapped, address) && Maps(pieces[l], mapped, address))
    ensures forall k :: 0 <= k < |pieces| ==> Inside(ranges, pieces[k])
    ensures forall k, l :: 0 <= k < l < |pieces| ==> Precedes(ranges, pieces[k], pieces[l])
  {
    hide Pieces, From, Until, Inside, Maps, Contiguous;
    var x := RangeOffset(ranges, mapped) + (address - ranges[mapped].start);
    PiecesAreContiguous(sizes, ranges, |sizes|);
    RangeOffsetMonotone(ranges, mapped + 1, |ranges|);
    OffsetsGrow(sizes, ranges, 0, mapped);
    ContiguousHolds(ranges, pieces, 0, DimmOffset(sizes, |sizes|), x);
    var k :| 0 <= k < |pieces| && Holds(ranges, pieces[k], x);
    HolderMaps(ranges, pieces[k], mapped, address);
    forall i, j | 0 <= i < j < |pieces|
      ensures !(Maps(pieces[i], mapped, address) && Maps(pieces[j], mapped, address))
    {
      NotBoth(ranges, pieces[i], pieces[j], mapped, address);
    }
  }

  lemma NotBoth(ranges: seq<Range>, p: Piece, q: Piece, mapped: nat, address: int)
    requires Precedes(ranges, p, q)
    ensures !(Maps(p, mapped, address) && Maps(q, mapped, address))
  {
  }

  lemma RangeStep(ranges: seq<Range>, j: nat)
    requires j < |ranges|
    ensures RangeOffset(ranges, j + 1) == RangeOffset(ranges, j) + Length(ranges[j])
  {
  }

  lemma HolderMaps(ranges: seq<Range>, p: Piece, mapped: nat, address: int)
    requires forall j :: 0 <= j < |ranges| ==> Length(ranges[j]) >= 0
    requires mapped < |ranges| && ranges[mapped].start <= address <= ranges[mapped].end
    requires Inside(ranges, p) && Holds(ranges, p, RangeOffset(ranges, mapped) + (address - ranges[mapped].start))
    ensures Maps(p, mapped, address)
  {
    hide RangeOffset;
    RangeStep(ranges, mapped);
    RangeStep(ranges, p.mapped);
    if p.mapped < mapped {
      RangeOffsetMonotone(ranges, p.mapped + 1, mapped);
    } else if mapped < p.mapped {
      RangeOffsetMonotone(ranges, mapped + 1, p.mapped);
    }
  }

  // ----- conservation per DIMM -----

  function PieceBytes(p: Piece): int {
    p.end - p.start + 1
  }

  function DeviceBytes(pieces: seq<Piece>, device: nat): int {
    if pieces == [] then 0
    else (if pieces[0].device == device then PieceBytes(pieces[0]) else 0) + DeviceBytes(pieces[1..], device)
  }

  function TotalBytes(pieces: seq<Piece>): int {
    if pieces == [] then 0 else PieceBytes(pieces[0]) + TotalBytes(pieces[1..])
  }

  lemma {:induction false} DeviceBytesAppend(a: seq<Piece>, b: seq<Piece>, device: nat)
    ensures DeviceBytes(a + b, device) == DeviceBytes(a, device) + DeviceBytes(b, device)
    decreases |a|
  {
    if a == [] {
      assert a + b == b;
    } else {
      assert (a + b)[1..] == a[1..] + b;
      DeviceBytesAppend(a[1..], b, device);
    }
  }

  lemma {:induction false} ContiguousBytes(ranges: seq<Range>, pieces: seq<Piece>, from: int, to: int)
    requires Contiguous(ranges, pieces, from, to)
    ensures TotalBytes(pieces) == to - from
    decreases |pieces|
  {
    if pieces != [] {
      ContiguousBytes(ranges, pieces[1..], Until(ranges, pieces[0]), to);
    }
  }

  lemma {:induction false} OneDeviceBytes(pieces: seq<Piece>, owner: nat, device: nat)
    requires forall k :: 0 <= k < |pieces| ==> pieces[k].device == owner
    ensures DeviceBytes(pieces, device) == if device == owner then TotalBytes(pieces) else 0
    decreases |pieces|
  {
    if pieces != [] {
      OneDeviceBytes(pieces[1..], owner, device);
    }
  }

  /** The pieces of each DIMM add up to its size. */
  lemma {:induction false} DeviceBytesAreSize(sizes: seq<int>, ranges: seq<Range>, n: nat, device: nat)
    requires Sane(sizes, ranges) && n <= |sizes| && DimmOffset(sizes, n) <= RangeOffset(ranges, |ranges|)
    requires device < |sizes|
    ensures DeviceBytes(Pieces(sizes, ranges, n), device) == if device < n then sizes[device] * MIB else 0
    decreases n
  {
    hide Row, Pieces, Contiguous, RangeOffset;
    NoPieces(sizes, ranges);
    if n > 0 {
      var row := Row(sizes, ranges, n - 1, |ranges|);
      PiecesStep(sizes, ranges, n);
      DimmOffsetMonotone(sizes, n - 1, n);
      DeviceBytesAreSize(sizes, ranges, n - 1, device);
      RowIsContiguous(sizes, ranges, n - 1, |ranges|);
      ContiguousBytes(ranges, row, DimmOffset(sizes, n - 1), DimmOffset(sizes, n));
      forall k | 0 <= k < |row|
        ensures row[k].device == n - 1
      {
        RowDevice(sizes, ranges, n - 1, |ranges|, k);
      }
      OneDeviceBytes(row, n - 1, device);
      DeviceBytesAppend(Pieces(sizes, ranges, n - 1), row, device);
    }
  }

  // ----- the Q35 map -----

  lemma {:induction false} DimmOffsetIsSum(sizes: seq<int>, n: nat)
    requires n <= |sizes|
    ensures DimmOffset(sizes, n) == Sum(sizes[..n]) * MIB
    decreases n
  {
    if n > 0 {
      DimmOffsetIsSum(sizes, n - 1);
      assert sizes[..n] == sizes[..n - 1] + [sizes[n - 1]];
      SumSnoc(sizes[..n - 1], sizes[n - 1]);
    }
  }

  lemma Q35Offsets(total: int)
    requires Q35Ranges(total).Ok?
    ensures var ranges := Q35Ranges(total).value;
      && |ranges| == 2 && RangeOffset(ranges, 1) == 2 * GIB && RangeOffset(ranges, 2) == total
      && Length(ranges[0]) == 2 * GIB && Length(ranges[1]) == total - 2 * GIB > 0
  {
    var ranges := Q35Ranges(total).value;
    assert RangeOffset(ranges, 1) == RangeOffset(ranges, 0) + Length(ranges[0]);
    assert RangeOffset(ranges, 2) == RangeOffset(ranges, 1) + Length(ranges[1]);
  }

  lemma Q35Row(sizes: seq<int>, total: int, i: nat)
    requires Q35Ranges(total).Ok? && i < |sizes| && DimmOffset(sizes, |sizes|) == total
    requires forall k :: 0 <= k < |sizes| ==> sizes[k] >= SMALL
    ensures |Row(sizes, Q35Ranges(total).value, i, 2)| == if i == 0 then 2 else 1
  {
    var ranges := Q35Ranges(total).value;
    Q35Offsets(total);
    DimmOffsetMonotone(sizes, i + 1, |sizes|);
    if i > 0 {
      DimmOffsetMonotone(sizes, 1, i);
    }
    assert DimmOffset(sizes, 1) == DimmOffset(sizes, 0) + sizes[0] * MIB;
    assert DimmOffset(sizes, i + 1) == DimmOffset(sizes, i) + sizes[i] * MIB;
    assert Row(sizes, ranges, i, 1) == Row(sizes, ranges, i, 0) + Overlap(sizes, ranges, i, 0);
    assert Row(sizes, ranges, i, 2) == Row(sizes, ranges, i, 1) + Overlap(sizes, ranges, i, 1);
  }

  lemma PiecesStep(sizes: seq<int>, ranges: seq<Range>, n: nat)
    requires 0 < n <= |sizes|
    ensures Pieces(sizes, ranges, n) == Pieces(sizes, ranges, n - 1) + Row(sizes, ranges, n - 1, |ranges|)
  {
  }

  lemma NoPieces(sizes: seq<int>, ranges: seq<Range>)
    ensures Pieces(sizes, ranges, 0) == []
  {
  }

  lemma {:induction false} Q35Count(sizes: seq<int>, total: int, n: nat)
    requires Q35Ranges(total).Ok? && n <= |sizes| && DimmOffset(sizes, |sizes|) == total
    requires forall k :: 0 <= k < |sizes| ==> sizes[k] >= SMALL
    ensures |Pieces(sizes, Q35Ranges(total).value, n)| == if n == 0 then 0 else n + 1
    decreases n
  {
    hide Pieces, Row, Q35Ranges, RangeOffset, DimmOffset;
    Q35Offsets(total);
    NoPieces(sizes, Q35Ranges(total).value);
    if n > 0 {
      PiecesStep(sizes, Q35Ranges(total).value, n);
      Q35Count(sizes, total, n - 1);
      Q35Row(sizes, total, n - 1);
    }
  }

  /**
   On the Q35 map with DIMMs of at least 4 GiB there is one piece more than there are DIMMs, and
   none touches the hole between 2 GiB and 4 GiB.
   */
  lemma Q35Pieces(sizes: seq<int>, total: int)
    requires Q35Ranges(total).Ok? && Sum(sizes) * MIB == total
    requires forall k :: 0 <= k < |sizes| ==> sizes[k] >= SMALL
    ensures var ranges := Q35Ranges(total).value; var pieces := Pieces(sizes, ranges, |sizes|);
      && |pieces| == |sizes| + 1
      && (forall k :: 0 <= k < |pieces| ==> Inside(ranges, pieces[k]))
      && (forall k :: 0 <= k < |pieces| ==> pieces[k].end < 2 * GIB || 4 * GIB <= pieces[k].start)
      && TotalBytes(pieces) == total
  {
    var ranges := Q35Ranges(total).value;
    DimmOffsetIsSum(sizes, |sizes|);
    assert sizes[..|sizes|] == sizes;
    Q35Offsets(total);
    Q35Count(sizes, total, |sizes|);
    PiecesAreContiguous(sizes, ranges, |sizes|);
    ContiguousHolds(ranges, Pieces(sizes, ranges, |sizes|), 0, total, 0);
    ContiguousBytes(ranges, Pieces(sizes, ranges, |sizes|), 0, total);
  }
}
